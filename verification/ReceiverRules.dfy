/** What the receiver does with each frame, in terms of the frame and the receiver's own fields. */
module ReceiverRules {
  import opened Words
  import opened Framing
  import opened OpFrames
  import S = SenderModel
  import I = SenderInvariant
  import Scheduling
  import opened Receiver

  /** From a sender the receiver listens to. */
  predicate FromListened(r: State, f: Frame) {
    r.expectedSender == 0 || r.expectedSender == f.header.sender
  }

  /** The callback is called exactly for the next operation, on its stream, from a sender listened to. */
  lemma CallbackRunsExactly(r: State, f: Frame, cap: nat, callback: Callback)
    requires f.payload.Data? && Legal(f)
    ensures HandleData(r, f, cap, callback).ran <==>
              && f.header.receiver == r.id && (r.expectedSender == 0 || r.expectedSender == f.header.sender)
              && f.payload.stream == r.stream && f.payload.opId as int == r.last + 1
              && callback != Missing && cap >= 22
  {}

  /** Only the sequence number and the position can move, the latter to the operation applied. */
  lemma DataMoves(r: State, f: Frame, cap: nat, callback: Callback)
    requires f.payload.Data? && Legal(f)
    ensures var e := HandleData(r, f, cap, callback);
            && e.state == r.(seqNo := e.state.seqNo, last := e.state.last)
            && e.state.last as int == (if e.ran && callback == Succeeds then r.last + 1 else r.last)
            && (e.state.seqNo == r.seqNo || e.state.seqNo as int == (r.seqNo + 1) % 65536)
            && (e.reply.Some? ==> e.state.seqNo as int == (r.seqNo + 1) % 65536)
  {}

  /** The number that tells why a DATA frame was refused, 0 if it was not, and 1 if it is not answered at all. */
  function Refusal(r: State, f: Frame, cap: nat, callback: Callback): u16
    requires f.payload.Data?
  {
    if f.header.receiver != r.id then 1
    else if !FromListened(r, f) then 4
    else if cap < 18 then 1
    else if f.payload.stream != r.stream then if cap < 22 then 1 else 5
    else if f.payload.opId <= r.last then 0
    else if cap < 22 then 1
    else if f.payload.opId as int > r.last + 1 then 6
    else if callback == Succeeds then 0
    else 8
  }

  /** Whether an answer with these fields can be encoded. */
  predicate Encodable(r: State, cap: nat, length: nat, id: int) {
    r.id != 0 && r.stream != 0 && 0 < id < 0x1_0000_0000 && cap >= length
  }

  /**
   Every answer to a DATA frame, field by field: to its sender, under the
   receiver's id and sequence number, on its stream; an ACK for the position
   reached if it was not refused, else a NACK that names the reason and asks for
   the operation after the position.
   */
  lemma DataAnswered(r: State, f: Frame, cap: nat, callback: Callback)
    requires f.payload.Data? && Legal(f)
    ensures var e, why := HandleData(r, f, cap, callback), Refusal(r, f, cap, callback);
            && (e.reply.Some? <==>
                  why != 1 && if why == 0 then Encodable(r, cap, 18, e.state.last) else Encodable(r, cap, 22, r.last + 1))
            && (e.reply.Some? ==>
                  var a := e.reply.value;
                  && a.header == Header(r.id, f.header.sender, r.seqNo) && a.payload.stream == r.stream
                  && if why == 0 then a.payload.Ack? && a.payload.ackId == e.state.last
                     else a.payload.Nack? && a.payload.error == why && a.payload.detail == 0
                          && a.payload.expected as int == r.last + 1)
            && (e.state.seqNo != r.seqNo <==> why != 1)
  {}

  // ---------- Beacons ----------

  /**
   A beacon is answered exactly when it is from a sender listened to, on the
   receiver's stream, and tells of more than was applied: by a REQUEST to its
   sender for the operation after the position. Only the sequence number moves.
   */
  lemma BeaconAnsweredExactly(r: State, f: Frame, cap: nat)
    requires f.payload.Beacon? && Legal(f)
    ensures var e := HandleBeacon(r, f, cap);
            var news := (r.expectedSender == 0 || r.expectedSender == f.header.sender)
                        && f.payload.stream == r.stream && f.payload.latest > r.last;
            && (e.reply.Some? <==> news && r.id != 0 && r.stream != 0 && cap >= 18)
            && (e.reply.Some? ==>
                  var a := e.reply.value;
                  && a.header == Header(r.id, f.header.sender, r.seqNo)
                  && a.payload.Request? && a.payload.stream == r.stream && a.payload.next as int == r.last + 1)
            && e.state == r.(seqNo := e.state.seqNo) && !e.ran
            && e.state.seqNo as int == if news then (r.seqNo + 1) % 65536 else r.seqNo
  {}

  /**
   And the sender takes that REQUEST if it has the receiver at its true
   position, has not given it up, and retains the operation: the slot is then
   due.
   */
  lemma BeaconAnswerTaken(s: S.State, i: nat, r: State, f: Frame, cap: nat, now: u64)
    requires I.Inv(s) && f.payload.Beacon? && Legal(f) && HandleBeacon(r, f, cap).reply.Some?
    requires i < |s.slots| && s.slots[i].active && !s.slots[i].exhausted && s.slots[i].rid == r.id
    requires s.slots[i].acked == r.last && r.stream == s.cfg.stream && f.header.sender == s.cfg.id
    requires s.oldest <= r.last + 1 <= s.Latest() < MAX_U32
    ensures S.HandleRx(s, now, HandleBeacon(r, f, cap).reply.value)
         == (s.(slots := s.slots[i := s.slots[i].(due := now)]), true)
  {
    BeaconAnsweredExactly(r, f, cap);
    I.FindsSlot(s, i);
    assert I.SlotOk(s, s.slots[i]);
  }
}
