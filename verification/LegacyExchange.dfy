/** One whole exchange of the batch protocol over a link that delivers, and what a lost acknowledgement costs. */
module LegacyExchange {
  import opened Words
  import opened Crc
  import opened Framing
  import opened UpdateFrames
  import opened Batches
  import opened LegacyModel

  /** Sender and receiver name each other, and neither id is the wildcard. */
  predicate Paired(a: Sender, r: Receiver) {
    && a.id != 0 && r.id != 0 && a.id != ANY_RECEIVER && r.id != ANY_RECEIVER
    && (r.expectedSender == 0 || r.expectedSender == a.id)
  }

  /** A sender that was given a legal update and holds its checksum. */
  predicate Offering(a: Sender) {
    && a.phase == WaitRequest && a.update.id != 0 && a.update.to > a.update.from
    && ValidBatch(a.update.removes, a.update.adds) && a.crc == CrcOf(UpdatePayload(a.update))
  }

  /** The version is the one the last batch led to, as after initialisation and after every batch. */
  predicate Consistent(r: Receiver) {
    r.last.to == r.version
  }

  /** A legal update given to a sender that awaits no ACK is on offer. */
  lemma GivenIsOffered(a: Sender, target: u16, u: Update)
    requires u.id != 0 && a.phase != WaitAck && u.to > u.from && ValidBatch(u.removes, u.adds)
    ensures var (b, error) := SetUpdate(a, target, u); error == ERR_NONE && Offering(b) && b.update == u && b.id == a.id
  {
    AcceptsExactly(u.removes, u.adds);
  }

  /** Beacon, request, batch, answer: each message is delivered, and the engine completes what it is handed. */
  function Exchange(a: Sender, r: Receiver, cap: nat): (Sender, Receiver, Verdict) {
    var beacon := BuildBeacon(a, cap);
    if beacon.out == None then (beacon.state, r, Nothing)
    else
      var asked := HandleBeacon(r, beacon.out.value, cap);
      if asked.out == None then (beacon.state, asked.state, Nothing)
      else
        var sent := HandleRequest(beacon.state, asked.out.value, cap);
        if sent.out == None || !sent.out.value.content.Batch? then (sent.state, asked.state, Nothing)
        else Finish(sent, asked.state, cap)
  }

  lemma BeaconAsks(a: Sender, r: Receiver, cap: nat)
    requires Paired(a, r) && Offering(a) && cap >= 28
    ensures var beacon := BuildBeacon(a, cap);
            beacon.state == a.(seqNo := Inc16(a.seqNo)) && beacon.out.Some? &&
            var asked := HandleBeacon(r, beacon.out.value, cap);
            if a.update.to <= r.version then asked.out == None && asked.state == r
            else asked.out == Some(Message(Header(r.id, a.id, r.seqNo), Wanted(a.update.id, r.version)))
                 && asked.state == r.(seqNo := Inc16(r.seqNo), waiting := true, retries := 0, pending := Announced(a))
  {}

  /** What the receiver notes from the beacon of `a`. */
  function Announced(a: Sender): Pending {
    var u := a.update;
    Pending(u.id, u.from, u.to, |u.removes|, |u.adds|, PayloadSize(|u.removes|, |u.adds|), a.crc)
  }

  lemma AnnouncedBatchPasses(a: Sender, r: Receiver, m: Message)
    requires Paired(a, r) && Offering(a) && Consistent(r) && m.header.sender == a.id && m.header.receiver == r.id
    requires r.waiting && r.pending == Announced(a) && m.content == Batch(a.update) && a.update.from == r.version
    ensures Validate(r, m) == if a.update.id == r.last.id then ERR_UPDATE_ID_UNKNOWN else ERR_NONE
  {
    AcceptsExactly(a.update.removes, a.update.adds);
  }

  /**
   The sender keeps the lists where the caller left them. If the caller changes
   their numbers after announcing `u`, the batch `v` that goes out passes the
   comparison with the beacon exactly if it has the checksum announced, or 0 was.
   */
  lemma ChangedListsPass(r: Receiver, m: Message, u: Update, v: Update)
    requires Announces(m, u) && u.to > u.from && r.waiting
    requires var o := m.content; r.pending == Pending(o.id, o.from, o.to, o.removes, o.adds, o.size, o.crc)
    requires v == u.(removes := v.removes, adds := v.adds) && |v.removes| == |u.removes| && |v.adds| == |u.adds|
    ensures AgainstOffer(r, v) == ERR_NONE <==>
              u.from == r.version
              && (CrcOf(UpdatePayload(u)) == 0 || CrcOf(UpdatePayload(v)) == CrcOf(UpdatePayload(u)))
  {}

  lemma RequestServed(a: Sender, m: Message, cap: nat)
    requires Offering(a) && a.id != 0 && LegalMessage(m) && m.header.receiver == a.id && cap >= 18
             && cap >= UpdateLength(a.update)
    requires m.content.Wanted? && m.content.id == a.update.id
    ensures var sent := HandleRequest(a, m, cap);
            sent.out.Some? &&
            if m.content.version == a.update.from
            then sent.state == a.(seqNo := Inc16(a.seqNo), target := m.header.sender, phase := WaitAck, retries := 0)
                 && sent.out.value == Message(Header(a.id, m.header.sender, a.seqNo), Batch(a.update))
            else sent.out.value.content.Refused?
  {}

  /** The last two messages of an exchange. */
  function Finish(sent: Sending, r: Receiver, cap: nat): (Sender, Receiver, Verdict)
    requires sent.out.Some? && sent.out.value.content.Batch? && LegalMessage(sent.out.value)
  {
    var done := HandleBatch(r, sent.out.value, cap, true);
    if done.out == None then (sent.state, done.state, Nothing)
    else
      var (b, verdict) := HandleAnswer(sent.state, done.out.value);
      (b, done.state, verdict)
  }

  lemma FinishApplies(a: Sender, r: Receiver, m: Message, cap: nat)
    requires Paired(a, r) && a.phase == WaitAck && cap >= 18
    requires LegalMessage(m) && m.header.sender == a.id && m.header.receiver == r.id && m.content == Batch(a.update)
    requires r.pending.id == a.update.id && r.version == a.update.from
    requires Validate(r, m) == if a.update.id == r.last.id then ERR_UPDATE_ID_UNKNOWN else ERR_NONE
    ensures var (b, t, verdict) := Finish(Sending(a, Some(m)), r, cap);
            if a.update.id == r.last.id then verdict == Nacked && t == r.(seqNo := Inc16(r.seqNo))
            else verdict == Applied && b.phase == Idle && t == Advanced(r, m.header, a.update)
  {}

  /**
   A delivered exchange applies the offered update exactly when it starts at
   the receiver's version and is not the update applied last; otherwise the
   receiver's version stays and the sender is never told it was applied.
   */
  lemma ExchangeApplies(a: Sender, r: Receiver, cap: nat)
    requires Paired(a, r) && Offering(a) && Consistent(r) && cap >= 28 && cap >= UpdateLength(a.update)
    ensures var (b, t, verdict) := Exchange(a, r, cap);
            && (verdict == Applied <==> a.update.from == r.version && a.update.id != r.last.id)
            && (verdict == Applied ==> b.phase == Idle && t.version == a.update.to && t.last.id == a.update.id
                                       && t.last.crc == a.crc && !t.waiting)
            && (verdict != Applied ==> t.version == r.version && t.last == r.last)
            && Consistent(t)
  {
    BeaconAsks(a, r, cap);
    if a.update.to > r.version {
      var beacon := BuildBeacon(a, cap);
      var asked := HandleBeacon(r, beacon.out.value, cap);
      RequestServed(beacon.state, asked.out.value, cap);
      var sent := HandleRequest(beacon.state, asked.out.value, cap);
      if a.update.from == r.version {
        AnnouncedBatchPasses(a, asked.state, sent.out.value);
        FinishApplies(sent.state, asked.state, sent.out.value, cap);
      }
    }
  }

  /**
   A batch that was applied and arrives again is acknowledged once more, and
   not applied again, exactly when it is addressed to the receiver's own id and
   the beacon had announced its checksum. A beacon may announce 0 instead,
   which switches the checksum comparison off; then the repetition is refused.
   */
  lemma RepetitionAcknowledged(r: Receiver, m: Message, cap: nat, again: Message, works: bool)
    requires m.content.Batch? && LegalMessage(m) && LegalMessage(again) && cap >= 18 && r.id != 0
    requires again.header.(seqNo := 0) == m.header.(seqNo := 0) && again.content == m.content
    requires HandleBatch(r, m, cap, true).tried && HandleBatch(r, m, cap, true).out.Some?
    ensures var u, t := m.content.u, HandleBatch(r, m, cap, true).state;
            var e := HandleBatch(t, again, cap, works);
            && !e.tried && e.state.version == t.version && e.out.Some?
            && (e.out.value.content == Done(u.id, u.to) <==>
                  m.header.receiver == r.id && CrcOf(UpdatePayload(u)) == r.pending.crc)
  {
    var t := HandleBatch(r, m, cap, true).state;
    FirstTime(r, m, cap);
    assert Repeats(t, again.header, m.content.u) <==>
             m.header.receiver == r.id && CrcOf(UpdatePayload(m.content.u)) == r.pending.crc;
    SecondTime(t, again, cap, works);
  }

  lemma FirstTime(r: Receiver, m: Message, cap: nat)
    requires m.content.Batch? && LegalMessage(m)
    requires HandleBatch(r, m, cap, true).tried && HandleBatch(r, m, cap, true).out.Some?
    ensures HandleBatch(r, m, cap, true).state == Advanced(r, m.header, m.content.u)
    ensures AddressedTo(m, r.id) && (r.expectedSender == 0 || m.header.sender == r.expectedSender)
    ensures NumbersError(m.content.u.removes, m.content.u.adds) == ERR_NONE
    ensures r.pending.id == m.content.u.id
  {}

  lemma SecondTime(t: Receiver, m: Message, cap: nat, works: bool)
    requires m.content.Batch? && LegalMessage(m) && cap >= 18 && t.id != 0 && t.pending.id != 0
    requires AddressedTo(m, t.id) && (t.expectedSender == 0 || m.header.sender == t.expectedSender)
    requires NumbersError(m.content.u.removes, m.content.u.adds) == ERR_NONE
    requires m.content.u.id == t.last.id && t.version == m.content.u.to
    ensures var e := HandleBatch(t, m, cap, works);
            && !e.tried && e.state.version == t.version && e.out.Some?
            && e.out.value.content == if Repeats(t, m.header, m.content.u) then Done(m.content.u.id, m.content.u.to)
                                      else Refused(t.pending.id, ERR_UPDATE_ID_UNKNOWN, 0)
  {}

  /**
   A lost acknowledgement costs one retransmission and nothing else: on the
   timeout the sender repeats the batch, the receiver acknowledges it again
   without touching its set, and the sender learns that it was applied.
   */
  lemma LostAckRecovered(a: Sender, r: Receiver, cap: nat, m: Message)
    requires Paired(a, r) && a.phase == WaitAck && a.retries < a.maxRetries && a.target == r.id
    requires m.header == Header(a.id, r.id, m.header.seqNo) && m.content == Batch(a.update) && LegalMessage(m)
    requires cap >= UpdateLength(a.update) && r.pending.crc == CrcOf(UpdatePayload(a.update))
    requires HandleBatch(r, m, cap, true).tried && HandleBatch(r, m, cap, true).out.Some?
    ensures var t, sent := HandleBatch(r, m, cap, true).state, OnAckTimeout(a, cap);
            sent.out.Some? && LegalMessage(sent.out.value) && sent.out.value.content.Batch? &&
            var e := HandleBatch(t, sent.out.value, cap, true);
            && !e.tried && e.out.Some? && HandleAnswer(sent.state, e.out.value).1 == Applied
  {
    var t, sent := HandleBatch(r, m, cap, true).state, OnAckTimeout(a, cap);
    RepetitionAcknowledged(r, m, cap, sent.out.value, true);
    AnswerAddress(t, sent.out.value, cap);
  }

  lemma AnswerAddress(t: Receiver, m: Message, cap: nat)
    requires m.content.Batch? && LegalMessage(m) && HandleBatch(t, m, cap, true).out.Some?
    ensures HandleBatch(t, m, cap, true).out.value.header.receiver == m.header.sender
  {}
}
