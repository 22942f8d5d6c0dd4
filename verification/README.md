# LoRaRAW module: verified model

This project models the parts of the LoRaRAW module that decide whether a point write reaches its
device and whether what comes back is believed, and proves properties of that model with Dafny 4.11.
`dafny verify dfyconfig.toml` checks all of it.

**Write scheduler.** One FIFO per device and one scheduler for a half-duplex radio. `Scheduler.dfy`
is a transition system with one step per critical section: enqueuers register a queue, append and
wake in separate steps; the scheduler scans peek by peek, checks for stop, prepares, writes, waits,
counts and removes in separate steps; RESPONSE callbacks look their queue up and dequeue in separate
steps; time passes in between. Any number of enqueuers and callbacks interleave. An item's identity
is the index it was created under, as a pointer would be. The invariants (`SchedulerMemory`,
`SchedulerSafety`, `SchedulerOutcome`, `SchedulerWakeup`) are kept by every step, and `SchedulerRuns`,
`SchedulerAcks`, `SchedulerPauses`, `SchedulerFairness` and `SchedulerDrain` state what follows for every run. `WriteQueue` and
`WriteQueueManager` are the queue and manager classes on linked, mutable objects; each method is proved
to have the effect on memory that the protocol gives to the corresponding step.

**Rubix bit-stream codec.** Encoder and decoder are loops over bytes with different shift tricks; both
are proved against one reference, a list of bits (`BitLists`, `RubixFields`): the settings byte, then
per field an optional 8-bit position, a 6-bit key and 1 to 64 data bits. `RubixStream` connects the two
ends.

**Frames and dispatch.** `Slices` models Go slices on a shared array, so that `Decrypt` really
overwrites the wire buffer it is given; `Dispatch` proves that the code, reading from that overwritten
buffer, still decides as if it had the original. CBC follows section 6.2 of NIST SP 800-38A. The block
cipher and the CMAC of section 6.2 of NIST SP 800-38B are abstract functions of key and input.

`PointWrite` puts the three together: a queued write, its frame, and the RESPONSE that acknowledges it.

What the proofs show about the code, beyond what its documentation says:

- A DOUBLE point can be written but not read: the decoder has no case for its key, consumes no data
  bits for it and takes them for further fields. The round trip holds exactly for streams without DOUBLE.
- COUNTER and OHM wrap to 0 at the top of their range, because a range of exactly 2^20 steps is given
  20 bits.
- A point whose data type is outside the table, or ERROR, is left out of a write request without an error.
- 11-bit fields with a position (4-20 mA, push frequency) are followed by seven padding bits, which decode
  as one extra field named "unknown-1"; one RESPONSE still acknowledges at most one write.
- A payload longer than 255 bytes does not survive its own length byte.
- The length check counts as if no MAC followed: an authentic frame whose length byte exceeds what was
  sealed by one or two is accepted, and that many MAC bytes are decoded as payload.
- An encryption-only model can be decoded without its key: the legacy fallback does not look at the model.
  It takes exactly the frames with an unknown wire address that the default key turns into the device's.
- A RESPONSE whose payload is a single byte acknowledges nothing, because no field fits in it.
- A RESPONSE for a LoRaRAW model without a response decoder (ZipHydroTap) calls a nil function.
- Plaintext frames with payload lengths 17, 33, 49, ... look like ciphertexts and are dropped unless their MAC happens to verify, although
  the comment on `isUnencryptedLoRaRAW` calls the length match reliable.
- With maxRetry of 0 or less an item is still sent once. "maxRetry" below means at least one attempt.
- An exhausted or timed-out attempt may be counted on an item that an ack has just removed; it is then
  neither removed again nor reported.

## Model

| member | source | states |
|---|---|---|
| `SchedulerRuns.Conservation` | pkg/writeQueue.go:47-138 | In every reachable state each device's enqueue history is its finished items in order followed by its current queue; the history lists exactly that device's items, once each, in enqueue order |
| `SchedulerRuns.SingleOutcome` | pkg/writeQueue.go:17-29 | An item leaves its queue at most once, is done exactly when it has left, and left as acked exactly when its acked flag says so |
| `SchedulerRuns.BoundedAttempts` | pkg/writeQueueManager.go:163-211 | No item is handed to the serial writer more than maxRetry times (at least once); an exhausted item exactly that often, a dropped one never, an acked one had been prepared |
| `SchedulerRuns.ExhaustedReports` | pkg/writeQueueManager.go:198-211 | onWriteExhausted fires at most once per item, only after all its attempts, and never for an acked item |
| `SchedulerRuns.OnlyTheHead` | pkg/writeQueueManager.go:165-173 | Everything behind a head is untouched (no message, no retries), and the item the scheduler has in hand is its queue's head, or has left by an ack, or is the one being reported |
| `SchedulerRuns.PreparedForever` | pkg/writeQueue.go:67-75 | Once an item has a message, it keeps that message and message id to the end of the run |
| `SchedulerRuns.OneResponseOnePop` | pkg/writeQueue.go:120-138 | After a RESPONSE callback has popped a head, no further callback with any id pops from that queue until the scheduler prepares a message for that same device, whatever it does for others |
| `SchedulerAcks.DequeueExactly` | pkg/writeQueue.go:118-138 | For every memory, a dequeue with an id changes nothing if the queue is empty, its head has no message, or the head's message id is another; otherwise exactly that head leaves, acked |
| `SchedulerAcks.AckedByItsId` | pkg/writeQueueManager.go:103-120 | Over every run: each item that ended acked was popped as the head of its own device's queue by a callback whose RESPONSE, looked up earlier in the run, carried exactly the id the item was prepared with |
| `SchedulerPauses.BackoffPause` | pkg/writeQueueManager.go:175-180 | Over every run: after a rejected write no scan, peek or write happens until the whole back-off has passed |
| `SchedulerPauses.NoPauseAfterTimeout` | pkg/writeQueueManager.go:190-192 | Over every run: after a response timeout the scheduler only settles the attempt until its next scan; it does not back off |
| `SchedulerPauses.CountedAfterFailure` | pkg/writeQueueManager.go:182-203 | Over every run: an attempt is counted only right after its own write was rejected or its whole response timeout ran out; an ack or Stop counts nothing |
| `SchedulerRuns.NoLostWakeup` | pkg/writeQueueManager.go:90-101 | Whenever the scheduler is blocked and some queue is non-empty, the notify token is present or an enqueuer stands between its append and its wake |
| `SchedulerRuns.RadioHold` | pkg/writeQueueManager.go:175-196 | When a frame goes out, the item of the frame before it has already left its queue or that frame's whole response timeout has elapsed |
| `SchedulerRuns.OneFrameAfterStop` | pkg/writeQueueManager.go:141-161 | After Stop at most one more request frame is written, over every run |
| `SchedulerPauses.FramesAfterStop` | pkg/writeQueueManager.go:71-74 | Whenever Stop is called in a run, at most one frame is written afterwards |
| `SchedulerPauses.StopEnds` | pkg/writeQueueManager.go:71-74 | Once stopped, the scheduler's steps are bounded in every run, whoever goes on enqueueing, and it comes to rest exactly by having exited |
| `SchedulerRuns.HeldItemMayBeGone` | pkg/writeQueueManager.go:182-192 | A concrete run reaches a state where the scheduler still holds an item that an ack has already removed |
| `SchedulerRuns.CountedThoughAcked` | pkg/writeQueueManager.go:190-192 | A concrete run counts an attempt on an item an ack has already removed; it is neither removed again nor reported |
| `SchedulerRuns.AppendBehindScan` | pkg/writeQueueManager.go:90-101 | A concrete run puts the scheduler to sleep on a non-empty queue with no token, saved only by the enqueuer's coming wake |
| `SchedulerRuns.SentOnceAnyway` | pkg/writeQueueManager.go:200-203 | With maxRetry of 0 or less a concrete run sends an item once, times out and reports it exhausted |
| `SchedulerWakeup.ScanEnds` | pkg/writeQueueManager.go:124-151 | A scan that ends without a pick keeps the wake-up invariant even when appends landed behind it |
| `SchedulerMemory.PopHeadKeeps` | pkg/writeQueue.go:87-97 | Removing a head with any outcome keeps the whole memory invariant: registry, conservation, ownership, done flags, untouched tails, single departures |
| `SchedulerMemory.AppendItemKeeps` | pkg/writeQueue.go:47-54 | Appending a new item keeps the whole memory invariant |
| `SchedulerMemory.WithItemKeeps` | pkg/writeQueue.go:69-84 | Preparing or counting an attempt keeps the memory invariant, for a head and for an item that is already gone |
| `SchedulerSafety.BaseStep` | pkg/writeQueueManager.go:76-211 | Every step of every party keeps the memory invariant, the index bound, and "held item is head or done" |
| `SchedulerSafety.ItemStep` | pkg/writeQueue.go:69-138 | All that one step can do to one item: be prepared once, be counted, or leave once, and only by the party entitled to it |
| `SchedulerSafety.AttemptsStep` | pkg/writeQueueManager.go:198-211 | Every step keeps the tie between attempts made, RetryCount and the retry limit |
| `SchedulerOutcome.SettledStep` | pkg/writeQueueManager.go:165-211 | Every step keeps what the way an item ended says about its message and its attempts |
| `SchedulerOutcome.ReportsStep` | pkg/writeQueueManager.go:204-210 | Every step keeps: reported items are exactly those that ended exhausted, except the one about to be reported |
| `SchedulerFairness.RoundRobin` | pkg/writeQueueManager.go:122-139 | While a device waits with a non-empty queue, every other device is picked at most once although new devices are registered; it waits for fewer picks than there are devices |
| `SchedulerFairness.IndexWithinOrder` | pkg/writeQueueManager.go:128-134 | The unreduced rrIndex stays within 0..len(order), and every peeked index is a registered device |
| `SchedulerFairness.NilOnlyIfAllEmpty` | pkg/writeQueueManager.go:124-139 | nextPending returns nil only if its scan saw every queue empty, each at its own moment |
| `SchedulerDrain.PicksPaid` | pkg/writeQueueManager.go:141-211 | Without new writes or Stop, every pick is paid for by one unit of the sum of (limit - RetryCount) over queued items, so picks never exceed that sum |
| `SchedulerDrain.RoundFalls` | pkg/writeQueueManager.go:200-206 | The sum is strictly smaller at every later pick |
| `SchedulerDrain.BoundedWork` | pkg/writeQueueManager.go:141-161 | In any run without Stop, under any interleaving and with any number of devices registered and writes added, the scheduler's steps are bounded by a potential of the first state plus a fixed price per added write |
| `SchedulerDrain.Drains` | pkg/writeQueueManager.go:141-151 | For every run without Stop from a reachable state: its scheduler steps are bounded, the scheduler has no step left after its timer exactly where it is idle, and idle with no enqueuer about to wake it every queue is empty |
| `SchedulerDrain.ExitsOnlyWhenStopped` | pkg/writeQueueManager.go:145-157 | In every reachable state the scheduler has exited only if Stop was called |
| `WriteQueue.PendingPointWrite.MarkDone` | pkg/writeQueue.go:24-29 | Only the first call sets done and acked |
| `WriteQueue.PointWriteQueue.EnqueueWriteQueue` | pkg/writeQueue.go:47-54 | Appends one fresh, unprepared item object |
| `WriteQueue.PointWriteQueue.Peek` | pkg/writeQueue.go:56-65 | The head object, or nil exactly when the queue is empty |
| `WriteQueue.PointWriteQueue.RemoveItem` | pkg/writeQueue.go:87-97 | Removes exactly the head, exactly when the head is the given object, and then marks it done and not acked |
| `WriteQueue.PointWriteQueue.Dequeue` | pkg/writeQueue.go:120-138 | Stated on the fields: pops the head without an id always, with an id exactly when the head's Message is set and its MessageId equals it; otherwise nothing changes |
| `WriteQueue.PointWriteQueue.SetMessage` | pkg/writeQueue.go:69-75 | Stores message and id and nothing else |
| `WriteQueue.PointWriteQueue.IncRetry` | pkg/writeQueue.go:78-84 | Adds one to the retry count, returns it, and changes nothing else |
| `WriteQueueManager.PointWriteQueueManager.GetOrCreateQueue` | pkg/writeQueueManager.go:76-88 | On linked objects: registers an unknown device once at the end of the order, with the protocol's AddQueue effect |
| `WriteQueueManager.PointWriteQueueManager.EnqueuePoint` | pkg/writeQueueManager.go:90-101 | On linked objects: registers, appends and leaves the token, with the protocol's effect |
| `WriteQueueManager.PointWriteQueueManager.DequeueUsingMessageId` | pkg/writeQueueManager.go:103-120 | On linked objects, stated on the fields: pops and acks the head exactly when its Message is set and its MessageId equals the given one, says whether it did, and has the protocol's effect |
| `WriteQueueManager.PointWriteQueueManager.NextPending` | pkg/writeQueueManager.go:124-139 | Returns the head of the first non-empty queue in cyclic order from rrIndex and moves rrIndex behind it; nil exactly when all queues are empty |
| `WriteQueueManager.PointWriteQueueManager.SetMessage` | pkg/writeQueueManager.go:245-246 | Storing the prepared frame has the protocol's Prepare effect |
| `WriteQueueManager.PointWriteQueueManager.FinishAttempt` | pkg/writeQueueManager.go:200-211 | Counts the attempt and removes the item only when the count has reached maxRetry and it is still the head; reports exhaustion exactly then |
| `WriteQueueManager.PointWriteQueueManager.Transmit` | pkg/writeQueueManager.go:165-196 | Given how preparing, writing and waiting turn out: hands over the stored frame, or the freshly prepared one, or drops the item; counts the attempt exactly after a failed write or a timeout; backs off exactly after a failed write |
| `WriteQueueManager.UninterruptedTransmit` | pkg/writeQueueManager.go:165-211 | The protocol's transmit, step by step but not interrupted, has the same effect on memory and frames as Transmit, and ends backing off after a failed write and back in the loop otherwise |
| `WriteQueueManager.PointWriteQueueManager.Stop` | pkg/writeQueueManager.go:71-74 | Closes stop, nothing else, however often it is called |
| `WriteQueueManager.PointWriteQueueManager.TakeOut` | pkg/writeQueue.go:87-97 | On linked objects: RemoveItem has the protocol's RemoveItem effect and returns true exactly for the head |
| `WriteQueueManager.UninterruptedScan` | pkg/writeQueueManager.go:124-139 | The protocol's peek-by-peek scan, when not interrupted, ends in the same pick and index as NextPending |
| `Encoder.ReshapeVector` | codecs/rubixDataEncoding/encoder.go:14-27 | The 64-bit carry loop yields the same bits behind WriteBitPos zeros |
| `Encoder.CarryStep` | codecs/rubixDataEncoding/encoder.go:20-24 | One carry turn writes the right 8 bits of (previous, next) and stale high carry bits never show |
| `Encoder.AddVectorToBuffer` | codecs/rubixDataEncoding/encoder.go:29-48 | Appends exactly the given bits to the abstract bit list, the initial WriteBitPos of 8 included, and keeps fewer than 8 zero padding bits |
| `Encoder.BitsToVector` | codecs/rubixDataEncoding/encoder.go:50-63 | Appends the low bitCount bits, most significant first, left-aligned and zero padded |
| `Encoder.EncodeData` | codecs/rubixDataEncoding/encoder.go:112-168 | Appends exactly one field's bits, leaves WriteBitPos at the list length mod 8, and changes nothing when it returns false |
| `Encoder.FixedPointToBits` | codecs/rubixDataEncoding/encoder.go:75-90 | Computes the rounded step count of the clamped value and its width |
| `RubixBuffer.SerialData.New` | codecs/rubixDataEncoding/serialdata.go:43-51 | A new buffer is one zero settings byte with the write position at 8 |
| `RubixBuffer.SerialData.SetPositionalData` | codecs/rubixDataEncoding/serialdata.go:61-70 | Sets bit 7 of the bit list and no other |
| `RubixBuffer.BitOfBitSet` | codecs/rubixDataEncoding/serialdata.go:61-66 | BIT_SET changes exactly the addressed bit |
| `Decoder.GetVector` | codecs/rubixDataEncoding/decoder.go:73-102 | Gathers exactly the bytes around the field, zeros when it runs past the end, and always advances ReadBitPos by the bit count |
| `Decoder.VectorToBits` | codecs/rubixDataEncoding/decoder.go:39-58 | Equals the number spelled by the addressed bits for 1 to 64 bits at any offset, the nine-byte case included |
| `Decoder.FieldNumber` | codecs/rubixDataEncoding/decoder.go:48-57 | The final shift, or and mask leave exactly the field's bits |
| `Decoder.ReadBits` | codecs/rubixDataEncoding/decoder.go:20-28 | A read inside the buffer is the number its bits spell, a read past the end is 0 |
| `Decoder.DecodePointRubix` | codecs/rubixDataEncoding/decoder.go:358-469 | Consumes the key's width (nothing for DOUBLE or an unknown key) and reports the number those bits mean |
| `Decoder.DecodeRubix` | codecs/rubixDataEncoding/decoder.go:314-356 | On any non-empty payload terminates, stays in range, and makes exactly the callbacks of the bit-list decode, in order |
| `SerialMap.GetBitCount` | codecs/rubixDataEncoding/decoder.go:60-71 | The loop returns the least positive width whose power of two reaches the range size |
| `SerialMap.BitCountUnique` | codecs/rubixDataEncoding/decoder.go:64-70 | There is only one such width |
| `RubixStream.StreamRoundTrip` | codecs/rubixDataEncoding/decoder.go:314-356 | A payload of table fields, positions on or off, decodes to exactly its keys, places and data in order plus one zero-key field when its length is 1 mod 8 -- if and only if no field is a DOUBLE |
| `RubixRoundTrip.EncodeThenDecode` | codecs/rubixDataEncoding/encoder.go:112-168 | EncodeData on any list of values, positional flag on or off, then DecodeRubix on the buffer: the decoded fields are exactly the accepted ones in order, plus the padding field, if and only if no accepted field is a DOUBLE; then integers are reported as the integers written, and without positions each field under its key's name and place |
| `RubixRoundTrip.EncodeAll` | codecs/rubixDataEncoding/encoder.go:112-168 | Any sequence of EncodeData calls, refused ones included, leaves a buffer that spells the settings byte and the accepted fields |
| `RubixFields.WireLayout` | codecs/rubixDataEncoding/encoder.go:117-123 | The layout bit by bit: settings byte 0 or 1, eight position bits if flagged, six key bits, then the data, each most significant bit first |
| `RubixFields.Acceptance` | codecs/rubixDataEncoding/encoder.go:92-162 | EncodeData takes exactly floats for fixed-point keys and values of the key's own size for word keys |
| `RubixStream.DoubleBreaksStream` | codecs/rubixDataEncoding/decoder.go:464-469 | Any stream with a DOUBLE field decodes to something else, wherever the field stands and whatever its data |
| `RubixStream.DecodeStream` | codecs/rubixDataEncoding/decoder.go:332-353 | Decoding from any field boundary inside a stream gives back all following fields |
| `RubixStream.PaddingDecodes` | codecs/rubixDataEncoding/decoder.go:16-18 | Fewer than seven padding bits decode to nothing, seven to exactly one zero-key field |
| `RubixStream.CallbackBound` | codecs/rubixDataEncoding/decoder.go:332-353 | Every callback consumes at least six bits |
| `RubixStream.AppendedBytesKeepFields` | codecs/rubixDataEncoding/decoder.go:332-353 | Appending bytes changes no field that ended inside the payload; at most one further field differs |
| `RubixStream.IntegerReported` | codecs/rubixDataEncoding/decoder.go:128-183 | For each integer key and every value of its word, signed or unsigned, the word is reported as that value |
| `RubixStream.WordsReported` | codecs/rubixDataEncoding/decoder.go:406-469 | Unsigned words are reported as themselves, a float as its bit pattern, error code 0 as a value and any other as an error, an unknown key as 0 |
| `RubixStream.IntegerReadBack` | codecs/rubixDataEncoding/decoder.go:332-353 | Wherever an integer field stands in a stream, its callback reports the integer its word carries |
| `RubixStream.SignedRoundTrip` | codecs/rubixDataEncoding/decoder.go:141-183 | A two's complement value of 1 to n bytes comes back as itself |
| `FixedPoint.FixedPointBound` | codecs/rubixDataEncoding/encoder.go:65-90 | Encode then decode lands within half a step of the clamped value if and only if the rounded step count is below 2^width; otherwise it equals 2^width and reads as the low end |
| `FixedPoint.OutsideTheRange` | codecs/rubixDataEncoding/encoder.go:65-90 | Values below the range arrive as its low end, values above as its high end or, for a power-of-two range, as the low end; values inside within half a step |
| `FixedPoint.HalvesAwayFromZero` | codecs/rubixDataEncoding/encoder.go:87 | Exact halves are rounded away from zero, whole numbers are kept |
| `FixedPoint.ReencodeIsStable` | codecs/rubixDataEncoding/decoder.go:114-120 | Encoding the decoded value again gives the same bits |
| `FixedPoint.WrappingKeys` | codecs/rubixDataEncoding/serialmap.go:54-83 | In the table only COUNTER and OHM wrap, exactly from 1048575.5 upward |
| `FixedPoint.TableWidths` | codecs/rubixDataEncoding/decoder.go:60-71 | The bit-count loop gives each key its width, and only COUNTER and OHM span a full power of two |
| `PositionNames.PositionByteRoundTrip` | codecs/rubixDataEncoding/decoder.go:206-267 | Every position byte of a non-GENERAL type comes back from its published name, the UVP/UVP2 split included; GENERAL names are refused |
| `PositionNames.NameBytes` | codecs/rubixDataEncoding/decoder.go:230-267 | The byte of every name TYPE-n in figures, and exactly which n are refused |
| `PositionNames.KeyNamesAreKeys` | codecs/rubixDataEncoding/serialmap.go:120-181 | Every table key has a name of its own that gives the key's number back, and only unknown keys are called unknown |
| `PositionNames.AcceptedNameIsPublishedCanonically` | codecs/rubixDataEncoding/decoder.go:230-267 | Every string getPosition accepts is published as its canonical name, which has the same byte |
| `Text.AtoiOfItoa` | codecs/rubixDataEncoding/decoder.go:206-239 | Decimal printing and parsing are inverse on 63-bit numbers |
| `Text.SignedNumbers` | codecs/rubixDataEncoding/decoder.go:239-242 | A signed decimal number parses as such down and up to the ends of the 64-bit range |
| `Text.NotANumber` | codecs/rubixDataEncoding/decoder.go:239-242 | A string without a digit, or with any other character after an optional sign, is refused |
| `RequestMessage.EncodeRequestMessage` | codecs/rubixDataEncoding/encoder.go:170-218 | Fails exactly when some point has no value, type number or valid position; otherwise the payload spells the settings byte and the encodable points' fields in order |
| `RequestMessage.RequestFails` | codecs/rubixDataEncoding/encoder.go:174-188 | A request fails exactly when some point has no value, no number for a type, or no valid position |
| `RequestMessage.SilentlyOmitted` | codecs/rubixDataEncoding/encoder.go:190-214 | A well-formed point is left out of its request without an error exactly when its type is outside the table or ERROR |
| `RequestMessage.FieldsOfPoints` | codecs/rubixDataEncoding/encoder.go:174-215 | The fields of a request belong one each, in order, to the points that are encodable, with their key, position byte and data |
| `RequestMessage.WordOfWrite` | codecs/rubixDataEncoding/encoder.go:190-214 | The field of a word key carries Go's conversion of the value written, under that very key |
| `RequestMessage.IntegerWriteReported` | codecs/rubixDataEncoding/encoder.go:190-209 | An integer write is reported by the decoder as the integer written, wherever it stands in the request |
| `RequestMessage.RequestReadBack` | codecs/rubixDataEncoding/encoder.go:170-218 | A request of any number of points decodes to its fields exactly when none is a DOUBLE, each under its point's canonical name, followed by at most the padding field |
| `RequestMessage.WriteReadBack` | codecs/rubixDataEncoding/encoder.go:170-218 | A one-point request decodes to the canonical point name, the same key and the data sent, followed by one padding field exactly for data widths 3 mod 8 |
| `RequestMessage.FixedWriteValue` | codecs/rubixDataEncoding/encoder.go:75-90 | A fixed-point write arrives within half a step of the clamped value, except COUNTER and OHM from 1048575.5 on |
| `Cbc.CbcRoundTrip` | aesutils/aesutils.go:39-41 | CBC decryption undoes CBC encryption from the same chaining block, for any number of blocks |
| `Cbc.ChainedBlock` | aesutils/aesutils.go:39-41 | Each ciphertext block is the cipher of its plaintext block xor the ciphertext block before it, the first one xor the IV |
| `Cbc.UnchainedBlock` | aesutils/aesutils.go:78-80 | Each decrypted block is the deciphered block xor the ciphertext block before it |
| `Cbc.MacInputBytes` | aesutils/aesutils.go:119-121 | The MAC input has 12 bytes more than the body: its first 16 bytes, then the body from byte 4 on, byte by byte |
| `Cbc.MacInputInjective` | aesutils/aesutils.go:106-126 | The MAC input determines the whole frame body |
| `AesUtils.InnerBytes` | aesutils/aesutils.go:23-38 | The bytes encrypted are opts, nonce, length modulo 256, the payload and zeros, byte by byte |
| `AesUtils.Encrypt` | aesutils/aesutils.go:22-58 | Builds address and CBC of the inner bytes, and ends in the first four bytes of the CMAC of the body fed twice over its first block; fails exactly on a bad key length |
| `AesUtils.Decrypt` | aesutils/aesutils.go:60-86 | Succeeds exactly when the key length is valid and the last four bytes are the CMAC of the rest, fed as the source feeds it; then rewrites in place exactly the bytes between address and MAC of the caller's array, trailer untouched; otherwise changes nothing |
| `Slices.Append` | aesutils/aesutils.go:82-85 | Go's append: overwrites the shared array exactly when capacity allows, otherwise leaves it alone |
| `LoRaRawFrame.FrameRoundTrip` | utils/utils.go:76-93 | Decrypt of Encrypt passes the MAC and length checks, gives back opts and nonce, and strips to the payload if and only if it is at most 255 bytes |
| `LoRaRawFrame.RepublishedIsPlain` | pkg/app.go:434-450 | The frame republished for an encrypted one is the plaintext frame, is recognised as such, and strips to the same payload |
| `LoRaRawFrame.TryDecryptLoRaRawPkt` | pkg/app.go:542-572 | Opens exactly the ciphertext-shaped frames whose MAC verifies; header, MAC and trailer bytes stay |
| `LoRaRawFrame.BuildUnencryptedRawFrame` | pkg/app.go:434-450 | Rebuilds header and payload from the decrypted bytes and takes the trailer from the overwritten wire buffer |
| `LoRaRawFrame.PlainLookingEncrypted` | pkg/app.go:410-416 | A plaintext-shaped frame is also ciphertext-shaped exactly for payload lengths 17, 33, 49, ... |
| `Dispatch.MacBytesHandedOn` | utils/utils.go:76-89 | For a sealed frame with any inner length byte n: nothing is handed on when n exceeds what was sealed by more than two, and n bytes otherwise, of which exactly those beyond what was sealed are MAC bytes |
| `Dispatch.PublishedFrame` | pkg/app.go:434-450 | What is published for a sealed frame with any inner length byte n: the plaintext frame up to n bytes, even into the MAC, and past its end the frame as received |
| `Dispatch.MacBytesExample` | pkg/app.go:464-474 | An authentic frame that announces 15 bytes where 13 were sealed is accepted and two bytes of its MAC are decoded as payload |
| `Dispatch.DispatchFrame` | pkg/app.go:210-354 | The in-place run on the receive buffer decides exactly as the value-level decision on the bytes received, although decryption overwrites that buffer; the legacy length check and a missing response decoder included |
| `Dispatch.TryLegacyDecrypt` | pkg/app.go:367-403 | Rewrites a frame exactly when it holds a whole block and the default key turns its address into a different one; the result starts with that address and keeps length and trailer |
| `Dispatch.LegacyRoundTrip` | aesutils/aesutils.go:88-104 | A frame encrypted block by block under the default key is rewritten to its plaintext and received trailer if and only if encryption had changed its address |
| `Dispatch.KnownLegacyDevice` | pkg/app.go:338-341 | A known device that is not LoRaRAW is reached exactly when described; its decoder runs exactly when the length check accepts the frame, on the very bytes received, which are also published |
| `Dispatch.DispatchKnownLegacy` | pkg/app.go:338-341 | The same on the receive buffer, which stays as it was |
| `Dispatch.LegacyFrameDelivered` | pkg/app.go:242-280 | A frame encrypted under the default key for a device whose address that hides: decoder and MQTT get the plaintext and the received trailer |
| `Dispatch.DroppedUnlessKnown` | pkg/app.go:219-268 | A frame of an unknown address is dropped unless the legacy fallback names a described device; one shorter than five bytes always is |
| `Dispatch.CiphertextNeedsMac` | pkg/app.go:235-337 | Over all frames and lookups: a ciphertext-shaped frame reaches a LoRaRAW device if and only if it is addressed to it and its MAC verifies, or the legacy fallback names the device |
| `Dispatch.EncryptionOnlyModels` | pkg/app.go:235-337 | A decoder of a model without plaintext runs exactly on verified frames whose opts select one, and otherwise exactly on frames that reach it through the legacy fallback and its length check |
| `Dispatch.DecodedWithoutMac` | pkg/app.go:238-280 | Such a decoder has run without a verified MAC if and only if the wire address is unknown and the default key turns it into a different address, which is the device's, and the model's length check accepts the rewritten frame |
| `Dispatch.DecodedWithoutMacExample` | pkg/app.go:238-280 | That happens: every encryption-only device at address 0 decodes a twenty-byte frame that carries no MAC |
| `Dispatch.PlaintextPath` | pkg/app.go:308-337 | A length-matching frame of a plaintext model takes the plaintext path exactly when n = 1 or n mod 16 is not 1 |
| `Dispatch.EncryptedFrameDelivered` | pkg/app.go:464-488 | An encrypted frame's payload reaches the decoder its opts select, and the plaintext frame with the true trailer is published; a RESPONSE to a model without a response decoder is the only exception |
| `Dispatch.PublishedFrameDecodesAgain` | pkg/app.go:317-328 | A republished frame decodes to the same payload again, except for payload lengths 17, 33, 49, ... |
| `PointWrite.WriteReachesDevice` | pkg/writeQueueManager.go:213-247 | The frame prepareMessage stores opens, with the same key, to REQUEST, the message id and a payload that decodes to the write |
| `PointWrite.CallbacksPopOnce` | pkg/dbWriter.go:132-152 | However many callbacks one RESPONSE makes, together they pop one write, or none if the head is not prepared with its id |
| `PointWrite.ResponseAcknowledges` | pkg/app.go:478-484 | An encrypted RESPONSE, followed through dispatch, the decode loop and one dequeue per decoded field, takes out the head of its own device's queue, as acked and once, if and only if the payload has at least two bytes and the head is prepared with the frame's message id; otherwise nothing changes |

## Left out

- AES and CMAC internals: any functions with the right lengths, block decryption inverting block encryption where a round trip needs it. Nothing is claimed about forgery or collisions.
- IEEE floating point: fixed-point values are reals, so the rounding of `float32`, `float64` and `math.Pow` is not modelled; MDK_FLOAT data is a raw bit pattern. Go's conversion of a float64 write value to an integer or float32 word is a parameter (`word`).
- RequestMessage.EncodeRequestMessage: MDK_FLOAT and integer write values go through that parameter, so nothing is said about how the word relates to the value.
- Random message ids: Prepare takes an arbitrary byte, and ids of different items may coincide.
- Confirmed-uplink acks and the serial writer's own queue: they bypass the scheduler, so radio hold and the frame count after Stop speak of request frames only.
- The endless loop of `schedule` exists only as protocol steps, not as a method, and the method for `transmit` is given how its select ends; the classes' methods are sequential, and interleaving is covered by the protocol alone. Mutexes appear as the atomicity of steps.
- Time is an integer clock that any step may move; a timer is enabled once its delay has passed and fires at any later moment.
- WriteQueueManager.PointWriteQueueManager.SetMessage: takes the finished frame; looking up device and key and building the frame are PointWrite.WriteReachesDevice's subject.
- WriteQueue.PointWriteQueue.Dequeue: the queue's own DequeueWriteQueue and DequeueUsingMessageId wrappers and Size add nothing and have no caller in the scheduler.
- Hex text: frames and addresses are bytes and frame hex is assumed well formed; `codec.ValidPayload`, RSSI and SNR text decoding and the errors they raise are not part of this model. A malformed device key is.
- Empty Rubix payloads: reading the settings byte of an empty buffer is outside the decoder's precondition, as in the source.
- Models without EncodeRequestMessage: a write queued for one is a nil call in `prepareMessage`; the protocol's Prepare step assumes an encoder.
- Dispatch.TryLegacyDecrypt: a default key that is not valid hex is not modelled; a default key of the wrong length is.
- Fixed-offset decoders (Droplet, MicroEdge, ZipHydroTap), the UART point table, point and device CRUD: field reads and plumbing that would only add easy members.
- gRPC, MQTT, the serial port, the HTTP router, configuration, schema and logging: libraries that are not part of this model. Dispatch records which decoder runs on what; only the Rubix decoders are modelled.
- Text.AtoiOfItoa: strconv is modelled for 64-bit decimal integers only.
