# NUM8-LUP: verified model

A Dafny model of the NUM8 LoRa update protocol and proofs about it. NUM8-LUP keeps sets of
eight-digit numbers in step across a lossy radio link. The repository holds two protocols, and
both are modelled here together with the frames and the checksum they share.

* **The asynchronous protocol.** One sender keeps an append-only log of ADD and REMOVE operations
  in a bounded ring and feeds it, one operation at a time, to many receivers, each with its own
  slot (position, in-flight operation, retries). Receivers apply exactly the next operation and
  answer ACK or NACK.
* **The legacy batch protocol.** A versioned stop-and-wait exchange of whole batches of removes
  and adds.

## How the model is built

| module | what it holds |
|---|---|
| `Words`, `Bits` | fixed-width unsigned integers, little-endian bytes, and their reading as bit strings |
| `Crc`, `CrcDetection` | the CRC loop, its meaning as polynomial division, and the errors it must expose |
| `CrcStart` | what the start value 0xFFFF does to every message, and the published check value |
| `Residues`, `Ladder`, `Periods`, `CrcOrder` | residues modulo the generator, the order of x, and what follows for one, two and three flipped bits |
| `Framing`, `OpFrames` | header, payload and footer of every frame; the five single-operation frames |
| `UpdateFrames`, `LegacyFrames` | the variable-length batch frame with its incremental checksum; the frames of the batch protocol and what its handlers make of bytes |
| `Layout` | where every field stands in every frame, byte by byte, and what the encoders and decoders accept |
| `Operations`, `Runs` | the set a log builds; runs of a state machine and ways to reason about all of them |
| `SenderModel`, `SenderInvariant`, `Scheduling` | the sender as a value, its invariant, its scheduler |
| `Newcomers`, `Patience` | the whole future of a receiver that registers late; how soon a slot may be given up |
| `Transmissions`, `Settling` | how many transmissions any interleaving can cause; delivery of the whole log in any interleaving |
| `SenderRules`, `PollRules`, `ReceiverRules` | what each call does, in terms of the fields, the arguments and the clock alone |
| `Sender`, `Receiver` | the two endpoints as classes with ring buffer, slot array and byte buffers, each method proved equal to its value-level counterpart |
| `Replication`, `Truncation`, `Wire` | sender, receivers and link as one state machine, on frames and on bytes: prefix consistency and safe truncation |
| `Setup`, `Convergence`, `Retransmission` | from initialisation to a system in step, and the loop that brings every receiver to the end of the log, with and without losses and failing callbacks |
| `Restarts`, `Stalls`, `Isolation`, `Scenarios` | exactly when falling back loses an operation, exactly when a slot too far behind can move, and runs from initialisation into both |
| `Batches` | which batches are legal, what applying, interrupting and retrying one does |
| `LegacyModel`, `LegacyContexts`, `LegacyExchange` | the batch protocol as values, as classes updated in place, and one exchange over a good link |
| `LegacyRules` | what each call of the batch protocol does, in terms of the context's fields and the message alone |
| `LegacyChain`, `LegacyRepeats`, `LegacyPair` | the batch protocol over a bad link: the version chain, duplicate tolerance, and what the link holds of past exchanges |
| `LegacyRetries`, `LegacyTraces` | one batch over a losing link with a failing engine; what interrupted batches leave in the set over any run |
| `LegacyLeak`, `LegacyStale`, `LegacyRefusals` | runs in which a batch given up leaves a trace and an old message ends the exchange of an applied one, and exactly when some later run can do the latter |
| `LegacyWire` | the batch protocol on bytes over a link that also damages them |

The classes carry the source's fields. `Sender.Sender` has a ghost field `model`, the abstract
sender with the log of every operation ever enqueued; `Valid()` ties it to the ring buffer, and
the run theorems are about the abstract machine. The network is the set of all frames ever sent:
delivering any of them at any time, any number of times or never covers loss, delay, reordering
and duplication. `Wire` and `LegacyWire` let the link damage bytes as well.

## What was found

* **A stale ACK can overtake a receiver.** Nothing in an ACK tells one life of a receiver from
  the next. If a receiver falls back to an older checkpoint and the sender's record of it is
  reset to the truth, an ACK from before the restart still matches the operation sent again;
  the sender then drops the operation the receiver needs next. `Restarts.FallBackExactly` says
  when, for any number of receivers: some later run loses an operation if and only if an ACK
  for an operation beyond the checkpoint is under way. Applying an operation puts one there
  (`Restarts.ApplyingAcknowledges`), and with two receivers and one operation it happens from
  initialisation (`Scenarios.FallBackHappens`). `docs/ASYNC_SPLIT_API.md:72` promises recovery
  after downtime without this condition. Otherwise truncation is safe
  (`Truncation.TruncationSafe`, `Truncation.LooselySafe`).
* **A position named two or more too low can get stuck.** A receiver answers a repeated operation
  with its own position, which the sender takes only if it is the operation in flight
  (`Truncation.RepeatAnswered`). Until the receiver restarts, is reset or unregistered, such a
  slot moves in some run if and only if it has not given up and an old ACK for its next
  operation is still under way (`Stalls.MovesExactly`); `Scenarios.TooLowHappens` reaches such
  a slot from initialisation.
* **Registration drops history first.** A new receiver that lags is served in some run in which
  nobody resets or unregisters it if and only if somebody registered before it still needs the
  same history (`Newcomers.NewcomerServedExactly`). Initialise, enqueue one operation, register
  the first receiver at 0: no such run sends it that operation (`Newcomers.FirstReceiverTooLate`,
  `Newcomers.StarvedForever`).
* **Some bursts across the footer go unseen.** Which damage to a valid frame goes unseen depends
  on the flipped bits alone, and `CrcDetection.UndetectedExactly` says how. Bursts of up to 16
  bits before the footer are never such damage. But the footer is little-endian while the
  register leaves its high byte first, so 0x89 flipped in the last payload byte and 0xA1 in the
  first footer byte, 16 consecutive bits, turn every valid frame into another valid one
  (`CrcDetection.StraddlingBurstUndetected`).
* **One, two or three flipped bits never go unseen.** Modulo the generator x has order 32767
  (`CrcOrder.OrderOfX`), so two flips are unseen only when a multiple of 32767 positions apart
  (`CrcOrder.TwoFlipsExactly`), and no frame has that many bits (`CrcOrder.FewFlipsDetected`,
  `UpdateFrames.FewFlipsRejected`).
* **The operation id counter is unguarded.** A single enqueue accepted at id 2^32-1 wraps to 0 and
  leaves counters that fit no log (`Sender.Sender.EnqueueOp`); only the list form checks. Even
  without that, once the last id is in use `latest_op_id + 1u` is 0: every NACK and every REQUEST
  is refused (`Scheduling.NackTakenExactly`, `Scheduling.RequestTakenExactly`), and as the floor
  is 0 too, no history is dropped any more whatever is acknowledged
  (`Scheduling.LastIdFreezesHistory`).
* **An interrupted batch may leak.** A batch cut short and then given up for another one leaves a
  trace exactly when one of its calls that took effect was neither redundant nor on a number of
  the other batch (`Batches.AbandonedBatch`); `LegacyLeak.LeakHappens` is a run of the protocol
  in which that happens. Over any run, with any number of interrupted and abandoned batches, the
  set is the fold of the version chain if and only if each call of an interrupted attempt that no
  later call covers changes nothing on that fold (`LegacyTraces.SetIsChainFoldExactly`); so it is
  when interrupted batches are retried first (`LegacyChain.SetIsChainFold`).
* **NACKED may be about another update.** The sender compares neither the update id nor the sender
  of a NACK with what it awaits, and a request for any other update ends its exchange. Take any
  state that two endpoints naming each other reach from initialisation in which the sender awaits
  the ACK of an update the receiver has applied. With no frame damaged, some later run reports
  NACKED instead if and only if the link holds a NACK addressed to it or any batch but this
  update's; with damage allowed, one always does. Some later run ends the exchange by a request if
  and only if the link holds a request to it for anything else or an offer that leads beyond the
  update (`LegacyRefusals.AppliedMayBeRefused`). Two updates applied in turn, nothing lost and
  nothing refused, and a second copy of the first batch are enough
  (`LegacyRefusals.OldBatchHappens`), and no later run reports that update as applied
  (`LegacyStale.RefusalIsFinal`).
* **A slot can be given up with no time passing.** A slot left alone is given up only after
  `max_retries + 1` timeouts (`Patience.GivenUpOnTime`). But an accepted REQUEST makes a waiting
  slot due at once, so one old REQUEST delivered before each of `max_retries + 1` polls uses up
  its retries at a single instant (`Patience.ReplayExhausts`), and so do polls that cannot send
  once it is due (`Patience.FailedPollsExhaust`). No frame revives it then
  (`Scheduling.ExhaustedStays`).
* **Duplicate tolerance hangs on the announced checksum.** Between the two modelled endpoints the
  batch applied last, addressed to the receiver's own id, is always acknowledged again when it is
  repeated (`LegacyRepeats.DuplicateAcknowledged`); an older one is refused
  (`LegacyRepeats.OlderRefused`). A beacon of another make may announce checksum 0, which
  switches the comparison off; the receiver then stores 0 and refuses the batch it applied when
  it arrives again (`LegacyRepeats.UnannouncedChecksum`).
* **A poll that sends nothing is not free.** It spends a sequence number exactly when one is left
  and some slot is ready, and a retry whenever the first ready slot was waiting, even at the
  last sequence number (`Scheduling.FailedPollSpends`).

## Model

| member | source | states |
|---|---|---|
| Words.Write16 | src/num8lora_codec.c:47-51 | two bytes become the little-endian form, all others keep their value |
| Words.Write32 | src/num8lora_codec.c:53-59 | four bytes become the little-endian form, all others keep their value |
| Words.Read16At | src/num8lora_codec.c:37-40 | reading undoes writing, 16 bits |
| Words.Read32At | src/num8lora_codec.c:42-45 | reading undoes writing, 32 bits |
| Words.Join16 | src/num8lora_codec.c:37-51 | writing what was read restores the bytes, 16 bits |
| Words.Join32 | src/num8lora_codec.c:42-59 | writing what was read restores the bytes, 32 bits |
| Crc.UpdateByte | src/num8lora.c:35-52 | the eight-step word loop computes the bit-serial register after one more byte |
| Crc.Crc16 | src/num8lora_codec.c:5-35 | the one-shot loop computes the checksum of exactly the first `len` bytes |
| Crc.CrcAppend | src/num8lora.c:54-66 | a checksum may be continued piece by piece |
| Crc.PendingShift | src/num8lora_codec.c:20-31 | folding a byte in up front and shifting equals feeding its bits one at a time |
| Crc.DivisionStep | docs/WIRE_FORMAT.md:15 | feeding a bit is one step of polynomial long division by x^16+x^12+x^5+1 |
| Crc.QuotientUnique | docs/WIRE_FORMAT.md:15 | that division has only one quotient |
| Crc.FeedIsTheRemainder | docs/WIRE_FORMAT.md:15 | the register is the remainder of the message polynomial, and nothing else is |
| CrcStart.ComplementRule | src/num8lora_codec.c:8-16 | the start value: for two bytes or more the checksum is the one remainder, from the zero register, of the message with its first 16 bits complemented |
| CrcStart.CheckValue | tests/num8lora_codec_contract_test.c:35-42 | the checksum of the bytes of "123456789" is 0x29B1 |
| CrcDetection.FeedInjective | src/num8lora_codec.c:16-32 | the same bits never bring two different registers together |
| CrcDetection.MeetingRegisters | src/num8lora_codec.c:21-31 | registers that meet within 15 steps agreed on the low bits not yet shifted out |
| CrcDetection.BurstChangesRegister | src/num8lora_codec.c:16-32 | a difference inside 16 consecutive bits always changes the register, at every message length |
| CrcDetection.DifferentMessagesDifferentCrc | src/num8lora_codec.c:5-35 | two messages of equal length that differ only inside 16 consecutive bits have different checksums |
| CrcDetection.UndetectedExactly | src/num8lora_op.c:317-324 | damage to a valid frame goes unseen exactly when its flipped message bits, fed from zero, give its flipped checksum bits |
| CrcDetection.BurstDetected | src/num8lora_op.c:317-324 | a valid frame damaged only in such a window before the footer is rejected |
| CrcDetection.CrcParity | src/num8lora_codec.c:5-35 | the checksum has the bit parity of its message, for messages of every length |
| CrcDetection.ValidFrameIsEven | src/num8lora_op.c:317-324 | every valid frame, footer included, has an even number of one bits |
| CrcDetection.OddDetected | src/num8lora.c:321-332 | an odd number of flipped bits anywhere in a frame, footer included, is rejected |
| CrcDetection.FeedLinear | src/num8lora_codec.c:16-32 | the register is linear in message and start value |
| CrcDetection.StraddlingBurstUndetected | src/num8lora_op.c:317-324 | the 16-bit burst 0x89, 0xA1 across payload and footer turns every valid frame into another valid frame |
| Residues.SquareOfShift | docs/WIRE_FORMAT.md:15 | squaring modulo x^16+x^12+x^5+1: the square of x times a residue is x^2 times its square, for all residues |
| Periods.OnlyMultiples | docs/WIRE_FORMAT.md:15 | if 32767 is a period and none of its three maximal divisors is, the periods are exactly its multiples |
| CrcOrder.OrderOfX | docs/WIRE_FORMAT.md:15 | x^n is 1 modulo the generator exactly for the multiples of 32767 |
| CrcOrder.UndetectedIsZero | src/num8lora_op.c:317-324 | damage to a valid frame goes unseen exactly when all its flips, footer included, lead the register from zero back to zero |
| CrcOrder.TwoFlipsExactly | src/num8lora_op.c:317-324 | two flips go unseen exactly when they are a multiple of 32767 register positions apart |
| CrcOrder.FewFlipsDetected | src/num8lora_op.c:317-324 | one, two or three flipped bits anywhere in a frame of up to 4095 bytes, footer included, are rejected |
| Framing.FramedParts | src/num8lora.c:73-86 | a written frame has a valid checksum, its version, type and header, and its payload in place |
| Framing.FramedBack | src/num8lora.c:299-332 | bytes with a valid checksum and version are the frame of the header and payload read from them |
| Layout.FrameLayout | docs/WIRE_FORMAT.md:5-15 | version, type, sender, receiver and sequence number stand in bytes 0 to 7 and the checksum of all bytes before it in the last two, low byte first |
| Layout.BeaconLayout | docs/WIRE_FORMAT.md:19-19 | BEACON is type 0x21, 18 bytes: stream and latest id |
| Layout.RequestLayout | docs/WIRE_FORMAT.md:20-20 | REQUEST is type 0x22, 18 bytes: stream and id needed next |
| Layout.DataLayout | docs/WIRE_FORMAT.md:21-21 | DATA is type 0x23, 26 bytes: stream, id, operation type, three zero bytes, value |
| Layout.AckLayout | docs/WIRE_FORMAT.md:22-22 | ACK is type 0x24, 18 bytes: stream and id |
| Layout.NackLayout | docs/WIRE_FORMAT.md:23-23 | NACK is type 0x25, 22 bytes: stream, error, detail, id expected |
| Layout.AcceptedFields | src/num8lora_op.c:120-297 | the fields the single-operation encoders and decoders accept, for each type |
| OpFrames.Encode | src/num8lora_op.c:120-297 | the five encoders: exact bytes when the fields are legal and the frame fits, otherwise nothing written; bytes beyond the frame untouched |
| OpFrames.WroteMeans | src/num8lora_op.c:120-297 | what an endpoint reports as written is the frame's encoding and decodes to the frame |
| OpFrames.DecodeSerialize | src/num8lora_op.c:326-445 | decoding undoes encoding for every legal frame of the five types |
| OpFrames.SerializeDecode | src/num8lora_op.c:326-445 | every accepted byte string is the encoding of a legal frame of its type |
| OpFrames.DamageRejected | src/num8lora_op.c:94-113 | no decoder accepts a valid frame after a burst before the footer, up to three bit flips, or any odd number of them |
| Operations.FoldAppend | src/num8lora_receiver.c:180-201 | applying a log is applying its first part, then its second |
| Operations.FoldLast | src/num8lora_receiver.c:180-201 | the last operation on a number decides whether it is in the set; others do not matter |
| Operations.RestartReplay | src/num8lora_receiver.c:8-19 | a set reflecting k operations, replayed from any j <= k to any m >= k, equals one in-order run of m operations |
| Operations.ReplayExactly | src/num8lora_receiver.c:8-19 | a replay that may stop earlier gives the in-order set exactly when no number outside the replayed operations changed between checkpoint and reflected position |
| Operations.ReplayMustCatchUp | src/num8lora_receiver.c:8-19 | stopping the replay before k can leave a later change in the set |
| SenderModel.FloorIsLowest | src/num8lora_sender.c:70-100 | the floor is the least operation any active receiver needs, or one past the latest |
| SenderModel.AppendedStep | src/num8lora_sender.c:303-340 | within the list guards each enqueue succeeds, and reclaiming at each step adds up to reclaiming at the last |
| SenderModel.OneByOneSucceeds | src/num8lora_sender.c:424-446 | the insertion loops never fail midway |
| SenderModel.ListsAllOrNothing | src/num8lora_sender.c:386-456 | a list fails without a trace, or appends all removes then all adds exactly as that many single enqueues would |
| SenderModel.EnqueueFailsExactly | src/num8lora_sender.c:308-316 | a single enqueue fails exactly when illegal or when latest + 1 - max(oldest, floor) >= capacity |
| SenderRules.InitRule | src/num8lora_sender.c:186-229 | the initial value of every field |
| SenderRules.ReclaimRule | src/num8lora_sender.c:102-137 | reclaiming moves the oldest id alone, as far as no active slot needs less and at most past the latest, and not at all exactly when somebody needs it or less |
| SenderRules.EnqueueRule | src/num8lora_sender.c:303-340 | an operation is accepted exactly if its type is not 0, its value is in range and the ring has room after reclaiming; the state in each case |
| SenderRules.ListsAcceptedExactly | src/num8lora_sender.c:386-422 | a list is accepted exactly if it is empty, or free entries and ids suffice for all of it and every value is in range |
| SenderRules.ListOperations | src/num8lora_sender.c:424-446 | it stands for a REMOVE for each of the first list and then an ADD for each of the second |
| SenderRules.ListsLikeOneByOne | src/num8lora_sender.c:386-456 | with nothing to reclaim and some receiver needing an id up to the next, a list of legal values is accepted exactly if inserting one by one gets to the end |
| SenderRules.RegisterRule | src/num8lora_sender.c:231-257 | when registration succeeds, that a known receiver keeps its slot, and that a new one takes the first free slot with nothing in flight |
| SenderRules.ProgressRule | src/num8lora_sender.c:259-278 | a reset puts the slot at the position named with nothing in flight and revives it, then reclaims |
| SenderRules.UnregisterRule | src/num8lora_sender.c:280-301 | unregistering clears the slot but its id and position, then reclaims |
| SenderRules.UnknownReceiver | src/num8lora_sender.c:259-301 | a reset or unregistering of a receiver without a slot fails and changes nothing |
| SenderRules.FrameTakenExactly | src/num8lora_sender.c:617-730 | a frame is taken exactly if some active slot has its sender's id, it names this sender and stream, and the slot's fields fit a REQUEST, ACK or NACK of its kind; otherwise nothing changes |
| SenderRules.FrameTakenEffect | src/num8lora_sender.c:667-726 | what a REQUEST, ACK or NACK that is taken does to the slot, field by field |
| SenderRules.BeaconRule | src/num8lora_sender.c:459-473 | when a beacon goes out and what it says |
| PollRules.PollSendsExactly | src/num8lora_sender.c:526-614 | a poll sends exactly if some slot is overdue with a retry left or lags within the history, a sequence number is left and the frame can be encoded |
| PollRules.PollSentRule | src/num8lora_sender.c:557-612 | whom it serves, the frame, and every field afterwards, the deadline being now plus the timeout, or the end of the clock |
| PollRules.PollIdleRule | src/num8lora_sender.c:574-587 | with nothing to send it gives up exactly the overdue slots out of retries, and reclaims |
| PollRules.PollFailedRule | src/num8lora_sender.c:588-607 | with something to send that it cannot, it burns a retry of that slot if it waits, and a sequence number if one is left |
| SenderModel.FindSlotFirst | src/num8lora_sender.c:9-20 | the slot found for a receiver id is the first active one |
| SenderModel.SweptAt | src/num8lora_sender.c:569-587 | of the slots a scan passes, exactly the overdue ones out of retries change, to exhausted |
| SenderModel.FirstReadyIsFirst | src/num8lora_sender.c:557-612 | no slot before the chosen one in cyclic order is ready |
| SenderInvariant.InitInv | src/num8lora_sender.c:186-229 | an initialised sender satisfies the slot and log invariant |
| SenderInvariant.ReclaimInv | src/num8lora_sender.c:102-137 | reclaiming keeps the invariant and every operation an active slot awaits or needs next |
| SenderInvariant.ListsInv | src/num8lora_sender.c:386-456 | enqueue_lists keeps the invariant |
| SenderInvariant.RegisterInv | src/num8lora_sender.c:231-257 | registration keeps it, active receiver ids stay distinct |
| SenderInvariant.ProgressInv | src/num8lora_sender.c:259-278 | a progress reset keeps it |
| SenderInvariant.UnregisterInv | src/num8lora_sender.c:280-301 | unregistering keeps it |
| SenderInvariant.PollInv | src/num8lora_sender.c:574-611 | polling keeps it: retries within the limit, a waiting slot awaits last_acked + 1 and the ring holds it |
| SenderInvariant.RxInv | src/num8lora_sender.c:617-730 | every inbound frame keeps it |
| SenderInvariant.StepInv | src/num8lora_sender.c:152-726 | every call of the interface keeps it |
| Scheduling.ServeExact | src/num8lora_sender.c:152-184 | a ready slot is sent precisely the operation after its last acknowledged one, retransmissions included, unless emission is impossible |
| Scheduling.PollSendsIffReady | src/num8lora_sender.c:556-614 | a poll sends exactly when some slot is ready and emission is possible |
| Scheduling.PollServesFirstReady | src/num8lora_sender.c:550-612 | the whole effect of a successful poll on slots, cursor, sequence number and history, and the frame sent |
| Scheduling.FailedPollSpends | src/num8lora_sender.c:588-607 | the whole effect of a poll that sends nothing: a sequence number is spent exactly when one is left and a slot is ready, a retry exactly when the first ready slot waits |
| Scheduling.ServedSlotRests | src/num8lora_sender.c:57-68 | a slot just served is due again exactly when the timeout has passed, or the clock has ended, and it has a retry left |
| Scheduling.AnsweredSlotIsReady | src/num8lora_sender.c:655-726 | what an accepted REQUEST, NACK or ACK makes the next poll do for that slot |
| Scheduling.NackTakenExactly | src/num8lora_sender.c:696-727 | a NACK is taken exactly from a slot waiting for the operation it asks for, and never once the last id is in use |
| Scheduling.RequestTakenExactly | src/num8lora_sender.c:643-669 | a REQUEST is taken exactly for the next operation of a slot not given up, within the history, and never once the last id is in use |
| Scheduling.ResetSlotIsReady | src/num8lora_sender.c:259-278 | a progress reset within the retained history revives a slot, exhausted or not |
| Scheduling.NewcomerIsReady | src/num8lora_sender.c:239-254 | right after registration a new receiver is ready exactly when an earlier one still needs the same history |
| Scheduling.ServingOthersHelps | src/num8lora_sender.c:594-610 | each time another slot is served, a ready slot's distance from the cursor strictly falls |
| Scheduling.BoundedWaiting | src/num8lora_sender.c:556-612 | in every run a slot that stays ready is served within receiver_capacity successful polls |
| Scheduling.PollSpendsOne | src/num8lora_sender.c:569-611 | each successful poll lowers the transmission budget by exactly one, a failing one never raises it |
| Scheduling.StepBudget | src/num8lora_sender.c:655-726 | the budget rises only on an accepted ACK or NACK, a registration or a progress reset, by at most max_retries + 1 |
| Scheduling.TransmissionBound | src/num8lora_sender.c:569-611 | over every run transmissions are bounded by the initial budget plus max_retries + 1 per such event |
| Scheduling.ExhaustedStays | src/num8lora_sender.c:569-592 | no sequence of polls and inbound frames revives, changes or serves an exhausted slot |
| Scheduling.LastIdFreezesHistory | src/num8lora_sender.c:70-120 | once the last id is in use no run enqueues an operation or drops one |
| Patience.ReplayExhausts | src/num8lora_sender.c:667-667 | one old REQUEST delivered before each of as many polls as retries are left, and one more, has the slot given up at a single instant, frames sent or not |
| Patience.FailedPollsExhaust | src/num8lora_sender.c:574-592 | so do polls that cannot send, once the slot is due |
| Patience.GivenUpOnTime | src/num8lora_sender.c:574-592 | in every run that takes no frame of its receiver and whose polls can send, a slot is given up only by a poll max_retries + 1 timeouts after the poll that first sent its operation |
| Patience.GivenUpAfterTimeouts | src/num8lora_sender.c:574-592 | polled at each timeout with nothing heard, it is sent the operation max_retries times more and is given up by the poll max_retries + 1 timeouts after the first |
| Newcomers.StarvedForever | src/num8lora_sender.c:594-602 | an idle slot whose next operation was dropped keeps its position and is served in no run that neither resets nor unregisters its receiver |
| Newcomers.NewcomerServedExactly | src/num8lora_sender.c:231-257 | a new lagging receiver is served in some such run if and only if an earlier one still needs the same history |
| Newcomers.FirstReceiverTooLate | src/num8lora_sender.c:231-257 | initialise, enqueue one, register the first receiver at 0: the operation is already dropped |
| Transmissions.AcksTaken | src/num8lora_sender.c:671-694 | over every run of polls, frames, enqueues and unregistrations the ACKs taken are at most the operations lacking, new ones included |
| Transmissions.TransmissionsPaid | src/num8lora_sender.c:526-727 | over every such run, however interleaved, transmissions are at most the initial budget plus max_retries + 1 for each operation lacking and each NACK taken |
| Settling.SettlesAfter | src/num8lora_sender.c:526-727 | after more due polls than transmissions left, however interleaved with frames, every slot is given up, has the whole log, or needs what is gone |
| Settling.DeliveredOrGivenUp | src/num8lora_sender.c:526-727 | over every loosely disciplined run of sender, receivers and link with so many due polls, every receiver still registered was given up or holds the fold of the whole log |
| Sender.HoldsAt | src/num8lora_sender.c:35-55 | ring position head + k stores the k-th retained operation of the log |
| Sender.HoldsDropped | src/num8lora_sender.c:129-136 | advancing the head, wrapping round, leaves the rest of the retained log in place |
| Sender.HoldsPushed | src/num8lora_sender.c:325-334 | writing behind the last entry, wrapping round, stores the next operation of the log and overwrites none |
| Sender.Sender.constructor | src/num8lora_sender.c:186-229 | a fresh sender on caller-owned buffers represents the empty log |
| Sender.Sender.FindOp | src/num8lora_sender.c:35-55 | returns the id-th operation ever enqueued for every retained id, nothing otherwise, across wraparound and head resets |
| Sender.Sender.ActiveFloor | src/num8lora_sender.c:70-100 | the loop computes the floor |
| Sender.Sender.ReclaimHistory | src/num8lora_sender.c:102-137 | drops exactly the operations below the floor; count stays latest + 1 - oldest |
| Sender.Sender.Push | src/num8lora_sender.c:318-334 | appends one operation under the next id, or at the last id wraps the counter to 0 and leaves counters that fit no log |
| Sender.Sender.EnqueueOp | src/num8lora_sender.c:303-340 | enqueue_op refines the value-level enqueue, including its failures; at the last id the counter wraps |
| Sender.Sender.EnqueueLists | src/num8lora_sender.c:352-457 | enqueue_lists refines the value-level one, with contiguous ids first to last |
| Sender.Sender.EnqueueEach | src/num8lora_sender.c:424-446 | one insertion loop, after what was inserted before it |
| Sender.Sender.FindSlot | src/num8lora_sender.c:9-33 | the slot search loop |
| Sender.Sender.RegisterReceiver | src/num8lora_sender.c:231-257 | refines the value-level registration |
| Sender.Sender.SetReceiverProgress | src/num8lora_sender.c:259-278 | refines the value-level progress reset |
| Sender.Sender.UnregisterReceiver | src/num8lora_sender.c:280-301 | refines the value-level unregistering |
| Sender.Sender.BuildBeacon | src/num8lora_sender.c:459-473 | writes the beacon's bytes and changes no state |
| Sender.Sender.EmitData | src/num8lora_sender.c:152-184 | writes the DATA frame and marks the slot, or spends the sequence number only |
| Sender.Sender.ServeSlot | src/num8lora_sender.c:588-611 | serves one ready slot and moves the cursor past it |
| Sender.Sender.ScanSlots | src/num8lora_sender.c:556-614 | the scan loop finds and serves the first ready slot, exhausting overdue ones on the way |
| Sender.Sender.PollTx | src/num8lora_sender.c:526-615 | poll_tx refines the value-level poll, with the frame's bytes and its target receiver |
| Sender.Sender.HandleRx | src/num8lora_sender.c:617-730 | handle_rx on bytes refines the value-level handling of the decoded frame; other bytes change nothing |
| Sender.Sender.OnRequest | src/num8lora_sender.c:631-669 | the REQUEST branch: accepted exactly under the source's checks, makes the slot due |
| Sender.Sender.OnAck | src/num8lora_sender.c:671-694 | the ACK branch: accepted exactly for the operation in flight, advances the slot and reclaims |
| Sender.Sender.OnNack | src/num8lora_sender.c:696-727 | the NACK branch: accepted exactly for the operation in flight, idles the slot for an immediate resend |
| Receiver.ApplyIsAtomic | src/num8lora_receiver.c:87-176 | the position advances, by one, exactly when the callback ran and succeeded, and then an ACK for it is answered; no answer means nothing ran |
| Receiver.AnswersTellPosition | src/num8lora_receiver.c:92-176 | every answer is a legal frame that acknowledges the position reached or asks for the next |
| ReceiverRules.CallbackRunsExactly | src/num8lora_receiver.c:92-159 | the callback is called exactly for the next operation, addressed to the receiver, on its stream, from a sender it listens to, with room for a NACK |
| ReceiverRules.DataMoves | src/num8lora_receiver.c:92-176 | only sequence number and position can move, and how |
| ReceiverRules.DataAnswered | src/num8lora_receiver.c:92-176 | which DATA frames are answered, by an ACK or a NACK with which error number, and every field of the answer |
| ReceiverRules.BeaconAnsweredExactly | src/num8lora_receiver.c:40-60 | a beacon is answered exactly if it is news from a sender listened to: by a REQUEST to it for the operation after the position |
| ReceiverRules.BeaconAnswerTaken | src/num8lora_sender.c:631-669 | the sender takes that REQUEST if it has the receiver where it stands and retains the operation, and the slot is then due |
| Receiver.Engine.Call | src/num8lora_receiver.c:180-201 | ADD and REMOVE on the set with failures before or after the change; a call that succeeded changes nothing when repeated |
| Receiver.Receiver.constructor | src/num8lora_receiver.c:8-19 | a receiver starts at a given position with sequence number 1 |
| Receiver.Receiver.ProcessData | src/num8lora_receiver.c:92-176 | refines the value-level reaction: state, answer bytes, and effect on the set |
| Receiver.Receiver.ApplyNext | src/num8lora_receiver.c:159-176 | the callback runs once; success advances and acknowledges, failure asks for the same operation again |
| Receiver.Receiver.HandleDataFrame | src/num8lora_receiver.c:63-177 | handle_data on bytes, also when the answer overwrites the input buffer |
| Receiver.Receiver.HandleBeaconFrame | src/num8lora_receiver.c:21-61 | handle_beacon on bytes: asks for the next operation when behind |
| Replication.ReflectsRestart | src/num8lora_receiver.c:8-19 | falling back to an older position keeps what is known of the set |
| Replication.ReflectsDirty | src/num8lora_receiver.c:159-166 | a callback that failed after making its change keeps what is known of the set |
| Replication.SafeStep | src/num8lora_receiver.c:92-176 | every step of sender, receivers and link keeps the safety invariant |
| Replication.PrefixConsistency | src/num8lora_receiver.c:130-176 | in every reachable state a receiver applied the sender's log from its start to its position, in order and once each, and its set is the fold of that prefix once it has caught up with what it already reflected |
| Truncation.TracksStep | src/num8lora_sender.c:671-694 | every disciplined step keeps slots and ACKs never ahead of their receivers and, strictly, slots at most one behind and DATA frames never ahead |
| Truncation.TruncationSafe | src/num8lora_sender.c:70-137 | last_acked <= last_applied <= last_acked + 1, everything dropped was applied by every registered receiver, and the next needed operation is still found |
| Truncation.LooselySafe | src/num8lora_sender.c:70-137 | the history serves every registered receiver even if positions are named too low or receivers fall back, as long as not behind what was acknowledged |
| Truncation.RepeatAnswered | src/num8lora_receiver.c:130-139 | a repeated operation is answered with the receiver's position, and the sender accepts that exactly when it is the operation in flight |
| Restarts.FallBackTracks | src/num8lora_sender.c:259-278 | a fall-back with a truthful reset keeps truncation safe when no ACK beyond the position is under way |
| Restarts.StaleAckOvertakes | src/num8lora_sender.c:683-692 | with one receiver left, an ACK for an operation still to come ends in a state where that operation is dropped and needed |
| Restarts.FallBackExactly | src/num8lora_sender.c:259-278 | with any number of receivers, after a fall-back some later run loses a needed operation if and only if an ACK beyond the position is under way |
| Restarts.ApplyingAcknowledges | src/num8lora_receiver.c:168-176 | applying an operation puts an ACK beyond every older position under way |
| Scenarios.FallBackHappens | src/num8lora_sender.c:259-278 | from initialisation with two receivers and one operation, a fall-back to 0 and a run that loses the operation |
| Scenarios.DemoIsSuch | examples/async_demo.c:29-34 | the demo program's initial sender and receivers are such a system |
| Stalls.StuckStep | src/num8lora_sender.c:683-692 | no step but a restart, reset or unregistering of its receiver moves a slot two or more behind for which no fitting ACK is under way |
| Stalls.MovesExactly | src/num8lora_sender.c:683-692 | such a slot moves in some later run if and only if it has not given up and an old ACK for its next operation is under way |
| Scenarios.TooLowHappens | src/num8lora_sender.c:259-278 | from initialisation, a run to a slot two behind its receiver with such an ACK under way |
| Setup.SetupSynced | examples/async_demo.c:29-49 | registering receivers where they stand, enqueuing, and beacon and request traffic lead from initialisation to a system in step |
| Convergence.RoundLowersLag | examples/async_demo.c:51-74 | each poll, apply and acknowledge round lowers the total lag by exactly one and keeps everything synchronised |
| Convergence.RoundsLowerLag | examples/async_demo.c:51-74 | so does any number of rounds up to the lag |
| Convergence.Converges | examples/async_demo.c:51-74 | after as many rounds as operations were lacking, every receiver is at the end of the log with the same fold of it, and the ring is empty |
| Retransmission.PacedRound | src/num8lora_sender.c:574-611 | every round that sends leaves less to send, whether the frame, its answer or nothing is lost, and at most max_retries more if the callback failed and the NACK arrived |
| Retransmission.LossyConverges | src/num8lora_sender.c:526-615 | if the last permitted transmission of each operation and its answer get through, max_retries + 1 rounds for each operation lacking and each refusal by a failing callback bring every receiver to the fold of the whole log and no slot gives up |
| Convergence.LagZero | examples/async_demo.c:72-73 | the lag is zero exactly when no registered receiver is behind |
| Convergence.LastRoundEmpties | src/num8lora_sender.c:687-692 | the acknowledgement of the last operation lacking empties the ring |
| Convergence.DrainedRing | src/num8lora_sender.c:102-137 | with nothing lacking, a poll sends nothing and the ring is empty after it |
| Wire.OnlySentFramesDecode | src/num8lora_op.c:317-324 | bytes out of a damaging link that decode were sent as they are |
| Wire.WireRefines | src/num8lora_op.c:326-445 | every step on bytes is a step on frames or a loss |
| Wire.WirePrefixConsistency | src/num8lora_receiver.c:87-176 | prefix consistency end to end, on bytes |
| UpdateFrames.EncodeUpdate | src/num8lora.c:168-240 | exact bytes for every pair of lists of up to 255 numbers, otherwise nothing written |
| UpdateFrames.DecodeNumbers | src/num8lora.c:623-683 | both output lists are cleared, and filled with the frame's numbers if and only if both have room |
| UpdateFrames.DecodeSerializeUpdate | src/num8lora.c:409-462 | decoding returns header and both lists of every legal update |
| UpdateFrames.SerializeDecodeUpdate | src/num8lora.c:409-462 | every accepted frame is the encoding of what it decodes to |
| UpdateFrames.DamagedUpdateRejected | src/num8lora.c:321-349 | detectable damage is rejected: bursts before the footer, up to three bit flips, any odd number of them |
| UpdateFrames.FewFlipsRejected | src/num8lora.c:321-349 | one, two or three bit flips anywhere in any batch frame are rejected, whatever its length |
| UpdateFrames.ComputePayloadCrc | src/num8lora.c:686-726 | the incremental checksum equals the one-shot checksum of the payload bytes |
| UpdateFrames.PayloadInFrame | src/num8lora.c:217-235 | those are bytes 8 to len - 2 of the encoded frame |
| LegacyFrames.EncodeMessage | src/num8lora.c:93-297 | the five encoders: exact bytes when the fields are legal and the frame fits, otherwise nothing written; bytes beyond the frame untouched |
| LegacyFrames.WroteMeans | src/num8lora.c:93-297 | what a context reports as written is the message's encoding and decodes to the message |
| LegacyFrames.DecodeSerializeMessage | src/num8lora.c:351-504 | decoding undoes encoding for every legal message of the five types |
| LegacyFrames.SerializeDecodeMessage | src/num8lora.c:351-504 | every accepted byte string is the encoding of a legal message |
| LegacyFrames.DamagedMessageRejected | src/num8lora.c:321-349 | no decoder accepts a valid frame after detectable damage |
| LegacyFrames.BatchIsUpdate | src/num8lora.c:409-462 | a frame decoded as a batch is decoded alike by the update decoder |
| Layout.OfferLayout | src/num8lora.c:93-138 | the legacy beacon is type 1, 28 bytes: id, versions, counts, payload size, checksum |
| Layout.WantedLayout | src/num8lora.c:140-166 | the legacy request is type 2, 18 bytes: id and version |
| Layout.UpdateLayout | src/num8lora.c:168-240 | the update is type 3: id, versions, counts, two zero bytes, the removes and then the adds, four bytes each |
| Layout.AcceptedUpdate | src/num8lora.c:168-240 | the fields the update encoder and decoder accept |
| Layout.DoneLayout | src/num8lora.c:242-268 | the legacy ACK is type 4, 18 bytes: id and version |
| Layout.RefusedLayout | src/num8lora.c:270-297 | the legacy NACK is type 5, 18 bytes: id, error, detail |
| Layout.ClassifyRule | src/num8lora.c:728-829 | which error number a frame gets: 1 for its checksum, 2 for its version, 3 for its type, 4 for its address, in this order |
| Layout.MalformedRequestRule | src/num8lora_runtime.c:167-217 | a request that passes those checks but does not decode is refused for the update on offer with error 12 and ends the exchange |
| Layout.BatchFrameErrorRule | src/num8lora_runtime.c:531-575 | what keeps a frame from being a batch: those checks, then its sender (4), then its contents (12) |
| LegacyFrames.BatchFrameRefines | src/num8lora_num8_bridge.c:148-182 | for a frame that decodes to a batch, checks on bytes and checks on the message lead to the same reaction |
| LegacyFrames.OtherFramesRefused | src/num8lora_num8_bridge.c:159-182 | any other frame with a header is refused under the pending id with the first check it failed |
| LegacyFrames.RequestFrameRefines | src/num8lora_runtime.c:167-184 | a request that decodes is handled as the message it carries |
| Batches.AcceptsExactly | src/num8lora.c:506-596 | the scan accepts exactly the batches in range, distinct within and disjoint between the lists |
| Batches.ValidateNumbers | src/num8lora.c:506-596 | the nested loops return that verdict and the first error in scan order |
| Batches.BatchMeaning | src/num8lora_num8_bridge.c:72-96 | a complete batch turns S into (S minus removes) union adds, in either phase order when disjoint |
| Batches.RetriesComplete | src/num8lora_num8_bridge.c:63-109 | however often it was cut short, completing a batch gives the same set as completing it at once |
| Batches.AbandonedBatch | src/num8lora_num8_bridge.c:63-109 | an abandoned partial batch leaves no trace after the next one exactly when each call that took effect was redundant or on a number of the next one |
| Batches.Engine.PerformEach | src/num8lora_num8_bridge.c:72-83 | one loop: the calls up to the failing one take effect |
| Batches.Engine.ApplyBatch | src/num8lora_num8_bridge.c:72-109 | removes, adds, flush: all calls on success, a prefix of them on failure |
| LegacyContexts.SenderContext.constructor | src/num8lora_runtime.c:11-22 | an idle sender with sequence number 1 |
| LegacyContexts.SenderContext.Set | src/num8lora_runtime.c:24-91 | accepts exactly a legal update while no ACK is awaited and keeps its true checksum; a refusal changes nothing |
| LegacyContexts.SenderContext.Beacon | src/num8lora_runtime.c:93-127 | exactly when the fields are legal and fit, the bytes of a message that announces the update with its true payload checksum; only the sequence number moves |
| LegacyContexts.SenderContext.OnRequest | src/num8lora_runtime.c:143-235 | the batch goes out exactly to a request for the update on offer at the version it starts from, and is then awaited; any other answered request ends the exchange; the bytes of either answer are written; the update stays |
| LegacyContexts.SenderContext.HandleRequestFrame | src/num8lora_runtime.c:143-235 | the same from the request's bytes, a malformed request included, which is refused |
| LegacyContexts.SenderContext.OnAnswer | src/num8lora_runtime.c:237-305 | APPLIED exactly on an addressed ACK for the update at its target version while one is awaited, NACKED exactly on a NACK; anything else changes nothing |
| LegacyContexts.SenderContext.HandleAnswerFrame | src/num8lora_runtime.c:237-305 | the same from the answer's bytes |
| LegacyContexts.SenderContext.OnTimeout | src/num8lora_runtime.c:307-341 | the wait is given up exactly when the retries are spent, which never exceed max_retries; until then the bytes of the same batch go to the same receiver |
| LegacyContexts.ReceiverContext.constructor | src/num8lora_runtime.c:343-371 | a scanning receiver at a given version and last update |
| LegacyContexts.ReceiverContext.OnBeacon | src/num8lora_runtime.c:373-436 | answered exactly when news from a sender listened to; from then on the announced update, and no other id, passes the comparison with the beacon if it starts at the receiver's version; the request's bytes are written |
| LegacyContexts.ReceiverContext.HandleBeaconFrame | src/num8lora_runtime.c:373-436 | the same from the beacon's bytes |
| LegacyContexts.ReceiverContext.OnTimeout | src/num8lora_runtime.c:438-480 | the wait is given up exactly when the retries are spent; until then the bytes of a request for the announced update at the current version |
| LegacyContexts.ReceiverContext.Check | src/num8lora_runtime.c:531-642 | the checks on a batch in the source's order, retransmissions recognised |
| LegacyContexts.ReceiverContext.OnBatch | src/num8lora_num8_bridge.c:112-268 | the engine is touched only by a new, checked batch; the version moves only when it completed; the answer's bytes are written |
| LegacyContexts.ReceiverContext.OnGarbled | src/num8lora_num8_bridge.c:159-182 | the bytes of the refusal of a frame that is no batch for this receiver |
| LegacyContexts.ReceiverContext.HandleBatchFrame | src/num8lora_num8_bridge.c:112-268 | the whole of it from the frame's bytes: header, checksum, address, type and length checks, then the batch |
| LegacyModel.BatchReaction | src/num8lora_num8_bridge.c:184-268 | which answer a batch gets, when the engine is tried, and that version and memory move only with a completed batch whose ACK was encoded |
| LegacyRules.ScanRule | src/num8lora.c:536-576 | the scan of a list stops at the first value out of range (7) or occurring again later (8) |
| LegacyRules.VerdictRule | src/num8lora.c:536-594 | removes are scanned before adds, and only then is a number in both (9) found |
| LegacyRules.EncodedExactly | src/num8lora.c:93-297 | the fields and buffer sizes each legacy encoder accepts |
| LegacyRules.AddressRule | src/num8lora.c:728-829 | for which receiver id a message counts as addressed, the wildcard 0xFFFF included |
| LegacyRules.SenderInitRule | src/num8lora_runtime.c:11-22 | the initial value of every field of the sender |
| LegacyRules.ReceiverInitRule | src/num8lora_runtime.c:343-371 | the initial value of every field of the receiver |
| LegacyRules.SetUpdateRule | src/num8lora_runtime.c:24-91 | which error an update gets and every field after one that is accepted |
| LegacyRules.BeaconRule | src/num8lora_runtime.c:93-127 | when a beacon goes out and every field of it |
| LegacyRules.RequestRule | src/num8lora_runtime.c:143-235 | what is answered to a request, with error 5 or 6 or the batch, and every field afterwards |
| LegacyRules.AnswerRule | src/num8lora_runtime.c:237-305 | APPLIED and NACKED exactly, and every field afterwards |
| LegacyRules.AckTimeoutRule | src/num8lora_runtime.c:307-341 | what a timeout sends and every field afterwards |
| LegacyRules.OfferRule | src/num8lora_runtime.c:373-436 | which beacons are answered, with what, and every field afterwards |
| LegacyRules.UpdateTimeoutRule | src/num8lora_runtime.c:438-480 | what the receiver's timeout sends and every field afterwards |
| LegacyRules.ValidateRule | src/num8lora_runtime.c:531-702 | which error number a batch gets, check by check |
| LegacyRules.GarbledRule | src/num8lora_runtime.c:739-774 | the refusal of a frame that is no batch, and every field afterwards |
| LegacyRules.BatchRule | src/num8lora_num8_bridge.c:159-268 | when the engine is tried, the answer, and every field afterwards |
| LegacyRules.NoRoom | src/num8lora_num8_bridge.c:159-215 | without room for an answer nothing is done |
| LegacyExchange.AnnouncedBatchPasses | src/num8lora_runtime.c:605-702 | a batch announced by its own sender passes every check at the version it starts from, unless it carries the id applied last |
| LegacyExchange.ChangedListsPass | src/num8lora_runtime.c:84-85 | if the caller changes the numbers of the lists it handed over, the batch passes exactly if it has the checksum announced, or 0 was announced |
| LegacyChain.GarbledMessages | src/num8lora_num8_bridge.c:159-182 | the answer to a frame that cannot be validated acknowledges nothing and changes neither version nor memory |
| LegacyChain.AnswerStep | src/num8lora_runtime.c:270-285 | APPLIED is reported only for an update the receiver applied |
| LegacyChain.NewBatch | src/num8lora_num8_bridge.c:205-261 | a batch handed to the engine starts at the receiver's version, raises it, and is acknowledged |
| LegacyChain.ChainStep | src/num8lora_num8_bridge.c:159-267 | every step keeps the version chain |
| LegacyChain.ChainGrows | src/num8lora_runtime.c:662-672 | versions along the chain strictly grow, so no batch occurs twice |
| LegacyChain.VersionChain | src/num8lora_runtime.c:623-702 | in every reachable state: applied batches were given and legal, link up by version, occur once; reported updates were applied |
| LegacyChain.SetIsChainFold | src/num8lora_num8_bridge.c:63-109 | if interrupted batches are retried before others, the set is the fold of the chain whenever none is unfinished |
| LegacyTraces.NoTraceExactly | src/num8lora_num8_bridge.c:63-109 | all calls and the kept ones alone leave the same set exactly when each interrupted call that no later one covers is redundant on the latter |
| LegacyTraces.SetIsChainFoldExactly | src/num8lora_num8_bridge.c:63-109 | over every run, with any number of interrupted and abandoned batches, the set is the fold of the chain if and only if that condition holds |
| LegacyRepeats.CompletedIsAnnounced | src/num8lora_num8_bridge.c:250-260 | in every reachable state a completed batch is the one announced, so its true checksum is remembered |
| LegacyRepeats.DuplicateAcknowledged | src/num8lora_runtime.c:623-642 | in every reachable state the batch applied last, arriving again, is not applied again and is acknowledged again |
| LegacyRepeats.OlderRefused | src/num8lora_runtime.c:623-672 | in every reachable state any applied batch but the last, arriving again, is not tried and is refused |
| LegacyRepeats.UnannouncedChecksum | src/num8lora_num8_bridge.c:260 | a concrete beacon announcing checksum 0 after which the applied batch is refused when it arrives again |
| LegacyLeak.GivenUp | src/num8lora_num8_bridge.c:63-109 | a run in which a batch stops after k calls and another completes: the set differs from the chain's fold exactly under the condition of AbandonedBatch |
| LegacyLeak.LeakHappens | src/num8lora_num8_bridge.c:63-109 | from initialisation, a run whose set keeps a number of a batch the chain never had |
| LegacyStale.StraightExchange | src/num8lora_runtime.c:185-301 | right after an update went straight through, a message in the link reports NACKED if and only if a NACK addressed to the sender was there before, and a request ends the exchange if and only if one for anything else was |
| LegacyStale.AppliedButRefused | src/num8lora_runtime.c:287-301 | a run in which the update is applied and an old NACK, or an old request, ends its exchange |
| LegacyStale.RefusalIsFinal | src/num8lora_runtime.c:287-301 | after that no run ever reports the update as applied |
| LegacyPair.PrivateStep | src/num8lora_runtime.c:129-235 | between two endpoints that name each other every step keeps who speaks to whom, and that the link holds the batch awaited and the request and batch of every update applied |
| LegacyRefusals.RefusedExactly | src/num8lora_runtime.c:287-301 | while an applied update's ACK is awaited and no frame is damaged, some later run reports NACKED if and only if a NACK to the sender or another batch is under way |
| LegacyRefusals.EndedExactly | src/num8lora_runtime.c:185-217 | some later run ends that exchange by a request if and only if a request for anything else or an offer leading beyond the update is under way |
| LegacyRefusals.DamageRefuses | src/num8lora_num8_bridge.c:159-182 | with damaged frames some later run always reports NACKED |
| LegacyRefusals.AppliedMayBeRefused | src/num8lora_runtime.c:185-301 | all three, in every state reached from initialisation in which an applied update is awaited |
| LegacyRefusals.OldBatchSuffices | src/num8lora_runtime.c:287-301 | two updates applied in turn with no NACK ever sent, after which a second copy of the first batch has the second reported as refused |
| LegacyRefusals.OldBatchHappens | src/num8lora_runtime.c:287-301 | such a run from initialisation |
| LegacyWire.WireRefines | src/num8lora.c:728-829 | every step on bytes over a damaging link is the step on messages it means, a damaged batch a refusal, other damage a loss |
| LegacyWire.DamagedBatchRefused | src/num8lora_num8_bridge.c:159-182 | a damaged batch frame is refused with a NACK to the sender its header names |
| LegacyWire.WireVersionChain | src/num8lora_runtime.c:623-702 | the version chain end to end, on bytes |
| LegacyExchange.ExchangeApplies | src/num8lora_runtime.c:373-436 | a delivered exchange applies the update exactly when it starts at the receiver's version and is not the last one applied |
| LegacyExchange.RepetitionAcknowledged | src/num8lora_runtime.c:623-642 | an applied batch received again is never applied again, and acknowledged exactly when the beacon had announced its checksum |
| LegacyExchange.LostAckRecovered | src/num8lora_runtime.c:307-341 | a lost ACK costs one retransmission: the receiver acknowledges again and the sender reports APPLIED |
| LegacyRetries.AnswerWithinRetries | src/num8lora_runtime.c:307-341 | if some transmission within max_retries + 1 is answered and the answer gets through, APPLIED is reported exactly if the engine completed the batch in it or in one whose answer was lost, and then it was applied once with the set of an uninterrupted application |
| LegacyRetries.SentIsFlying | src/num8lora_runtime.c:143-235 | a delivered beacon and request lead to such a first transmission |

## Assumptions

* Ring and slot capacities are at most 2^31, so index sums do not wrap.
* In the run theorems a single enqueue at operation id 2^32-1 does not happen (the code does not
  guard it), update ids are not reused on the batch sender, and each receiver id belongs to one
  receiver.
* Frames on the link were produced by the modelled endpoints; `Wire` and `LegacyWire` add damage of
  the kinds the checksum is proved to expose: bursts before the footer, up to three flipped bits,
  any odd number of them. Other damage is not part of the model.
* The caller does not change the lists it handed to set_update while their update is on offer.
* Time is an argument, as in the source. The set engine and the apply callback are modelled as a
  set whose calls may fail before or after making their change.

## Left out

- Truncation.TruncationSafe: receivers restart only where they stood. For older positions the property is false in general; Truncation.LooselySafe and Restarts.FallBackExactly cover them.
- Restarts.FallBackExactly: asks for enough sequence numbers to send again what was fallen back over, for nonzero sender and stream ids, and for a receiver of the same stream that listens to the sender; without them nothing can be sent at all.
- Stalls.MovesExactly: for a slot whose next operation is retained, with a sequence number left and nonzero sender and stream ids.
- Retransmission.LossyConverges: losses and failing callbacks, one exchange at a time; Settling.DeliveredOrGivenUp is the form for any interleaving. Callbacks do not fail once the last operation id is in use, as NACKs are refused then.
- Newcomers.NewcomerServedExactly: for a lagging receiver, with a sequence number left and nonzero sender and stream ids.
- Operations.RestartReplay: stated for replays that reach at least what the set already reflects; Operations.ReplayExactly has the exact condition for shorter ones.
- LegacyChain.VersionChain: one receiver; the batch sender does not tie an ACK to its target receiver.
- Settling.DeliveredOrGivenUp: nobody joins, is reset or enqueues during the run; a slot may be given up, and how soon is the subject of Patience.
- LegacyContexts.SenderContext.Set: takes the two lists by value, while the source keeps the caller's pointers (src/num8lora_runtime.c:84-85); LegacyExchange.ChangedListsPass says what a change of theirs would do.
- LegacyRetries.AnswerWithinRetries: one batch in flight between two endpoints that name each other, without old messages; those are LegacyRefusals' subject.
- UpdateFrames.DecodeNumbers: the two output lists are different arrays.
- last_applied_payload_size is stored by the source and never read; it is not kept here.
- The five encoders are one method with a case per frame type; the decoders are functions, as they change nothing but their out structs.
- The receiver's check of value and operation type after decoding (src/num8lora_receiver.c:117-128) cannot fail, because the decoder already made it.
- num8lora_sender_handle_request and its history-unavailable NACK: receivers have no handler for it; it only spends a sequence number.
- Reserved header fields are always 0 in the modelled updates (src/num8lora_runtime.c:56 also refuses others).
- NULL pointers and the clearing of output arguments; an output capacity is the length of an array.
- Files and metadata (src/num8lora_meta.c, src/num8lora_metadata.c): persistence appears as the choice of a restart position.
- NUM8 engine internals: the engine is not in the repository and is a set here.
