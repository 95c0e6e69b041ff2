/** The two contexts of the batch protocol, updated in place as the runtime and the engine bridge do. */
module LegacyContexts {
  import opened Words
  import opened Crc
  import opened Framing
  import opened Operations
  import opened UpdateFrames
  import opened Batches
  import Model = LegacyModel
  import opened LegacyModel
  import opened LegacyFrames

  class SenderContext {
    var phase: Phase
    var id: u16
    var target: u16
    var seqNo: u16
    var maxRetries: u8
    var retries: u8
    var update: Update
    var crc: u16
    var lastNack: u16

    ghost function State(): Model.Sender
      reads this
    {
      Model.Sender(phase, id, target, seqNo, maxRetries, retries, update, crc, lastNack)
    }

    /** The update on offer is legal. */
    ghost predicate Valid()
      reads this
    {
      retries <= maxRetries && (phase != Idle ==> update.to > update.from && ValidBatch(update.removes, update.adds))
    }

    /** The checksum kept beside the update is its own. */
    ghost predicate Checked()
      reads this
    {
      crc == CrcOf(UpdatePayload(update))
    }

    constructor (id: u16, maxRetries: u8)
      ensures Valid() && State() == SenderInit(id, maxRetries)
    {
      phase, this.id, target, seqNo := Idle, id, 0, 1;
      this.maxRetries, retries, crc, lastNack := maxRetries, 0, 0, ERR_NONE;
      update := Update(0, 0, 0, [], []);
    }

    /** set_update. A refused update changes nothing. */
    method Set(target: u16, u: Update) returns (error: u16)
      requires Valid()
      modifies this
      ensures Valid()
      ensures (State(), error) == SetUpdate(old(State()), target, u)
      ensures error == ERR_NONE <==> old(phase) != WaitAck && u.to > u.from && ValidBatch(u.removes, u.adds)
      ensures if error == ERR_NONE then update == u && Checked() else State() == old(State())
    {
      if phase == WaitAck {
        return ERR_BUSY;
      }
      if u.to <= u.from {
        return ERR_VERSION_MISMATCH;
      }
      var ok;
      ok, error := ValidateNumbers(u.removes, u.adds);
      if !ok {
        return;
      }
      Accept(target, u);
    }

    method Accept(target: u16, u: Update)
      requires retries <= maxRetries && u.to > u.from && ValidBatch(u.removes, u.adds)
      modifies this
      ensures Valid() && Checked()
      ensures State() == old(State()).(target := target, update := u, crc := crc, retries := 0,
                                       lastNack := ERR_NONE, phase := WaitRequest)
    {
      var payloadCrc := ComputePayloadCrc(u);
      Keep(target, u, payloadCrc);
    }

    method Keep(target: u16, u: Update, crc: u16)
      modifies this
      ensures State() == old(State()).(target := target, update := u, crc := crc, retries := 0,
                                       lastNack := ERR_NONE, phase := WaitRequest)
    {
      this.target, this.crc, update, retries, lastNack := target, crc, u, 0, ERR_NONE;
      phase := WaitRequest;
    }

    /** The beacon announces the update, true checksum included; only the sequence number moves. */
    method Beacon(out: array<byte>) returns (ok: bool, len: nat, ghost sent: Option<Message>)
      requires Valid()
      modifies this`seqNo, out
      ensures Wrote(sent, ok, len, out[..])
      ensures Valid()
      ensures sent.Some? <==> out.Length >= 28 && id != 0 && update.id != 0 && update.to > update.from
      ensures sent.Some? ==> LegalMessage(sent.value) && (Checked() ==> Announces(sent.value, update))
      ensures Sending(State(), sent) == BuildBeacon(old(State()), out.Length)
    {
      var size := 16 + 4 * |update.removes| + 4 * |update.adds|;
      var offer := Offer(update.id, update.from, update.to, |update.removes|, |update.adds|, size, crc);
      ok, len, sent := Emit(0, offer, out);
    }

    /** Encodes a message and, if it went out, moves the sequence number on. */
    method Emit(to: u16, c: Content, out: array<byte>) returns (ok: bool, len: nat, ghost sent: Option<Message>)
      modifies this`seqNo, out
      ensures sent == Encoded(Message(Header(id, to, old(seqNo)), c), out.Length)
      ensures seqNo == if sent == None then old(seqNo) else Inc16(old(seqNo))
      ensures Wrote(sent, ok, len, out[..])
    {
      var m := Message(Header(id, to, seqNo), c);
      sent := Encoded(m, out.Length);
      ok, len := EncodeMessage(out, m);
      if ok {
        seqNo := Inc16(seqNo);
      }
    }

    /**
     The batch goes out exactly to a request for the update on offer from a
     receiver that stands where it starts, and is then awaited; any other
     request that is answered ends the exchange. The update stays.
     */
    method OnRequest(m: Message, out: array<byte>) returns (ok: bool, len: nat, ghost sent: Option<Message>)
      requires Valid() && LegalMessage(m)
      modifies this, out
      ensures Wrote(sent, ok, len, out[..])
      ensures Valid() && update == old(update) && crc == old(crc)
      ensures sent.Some? && sent.value.content.Batch? <==>
                old(phase) != Idle && AddressedTo(m, id) && m.content == Wanted(update.id, update.from)
                && id != 0 && out.Length >= UpdateLength(update)
      ensures sent.Some? && sent.value.content.Batch? ==>
                sent.value.content.u == update && sent.value.header.receiver == m.header.sender == target &&
                phase == WaitAck && retries == 0
      ensures sent.Some? && !sent.value.content.Batch? ==>
                phase == Idle && lastNack != ERR_NONE && m.content.Wanted?
                    && sent.value.content == Refused(m.content.id, lastNack, 0)
      ensures sent == None ==> phase == old(phase) && seqNo == old(seqNo) && target == old(target)
      ensures Sending(State(), sent) == HandleRequest(old(State()), m, out.Length)
    {
      RequestMeaning(State(), m, out.Length);
      ok, len, sent := AnswerRequest(m, out);
    }

    method AnswerRequest(m: Message, out: array<byte>) returns (ok: bool, len: nat, ghost sent: Option<Message>)
      requires LegalMessage(m)
      modifies this, out
      ensures Wrote(sent, ok, len, out[..]) && Sending(State(), sent) == HandleRequest(old(State()), m, out.Length)
    {
      if phase == Idle || !AddressedTo(m, id) || !m.content.Wanted? {
        return false, 0, None;
      }
      var error := ERR_NONE;
      if m.content.id != update.id {
        error := ERR_UPDATE_ID_UNKNOWN;
      } else if m.content.version != update.from {
        error := ERR_VERSION_MISMATCH;
      }
      var reply := Batch(update);
      if error != ERR_NONE {
        lastNack, reply := error, Refused(m.content.id, error, 0);
      }
      ok, len, sent := Emit(m.header.sender, reply, out);
      if !ok {
        return;
      }
      if error != ERR_NONE {
        phase := Idle;
      } else {
        target, phase, retries := m.header.sender, WaitAck, 0;
      }
    }

    /** Only an ACK for the update awaited, at the version it leads to, reports it as applied; a NACK ends the wait. */
    method OnAnswer(m: Message) returns (verdict: Verdict)
      requires Valid()
      modifies this
      ensures Valid() && update == old(update) && crc == old(crc) && seqNo == old(seqNo)
      ensures verdict == Applied <==>
                old(phase) == WaitAck && AddressedTo(m, id) && m.content == Done(update.id, update.to)
      ensures verdict == Nacked <==> old(phase) == WaitAck && AddressedTo(m, id) && m.content.Refused?
      ensures phase == if verdict == Nothing then old(phase) else Idle
      ensures verdict == Nacked ==> lastNack == m.content.error
      ensures verdict == Nothing ==> State() == old(State())
      ensures (State(), verdict) == HandleAnswer(old(State()), m)
    {
      verdict := Nothing;
      if phase != WaitAck || !AddressedTo(m, id) {
        return;
      }
      match m.content
      case Done(done, version) =>
        if done == update.id && version == update.to {
          phase, retries, verdict := Idle, 0, Applied;
        }
      case Refused(_, error, _) =>
        lastNack, phase, verdict := error, Idle, Nacked;
      case _ =>
    }

    /** handle_update_request: the header is checked, the request decoded, a malformed one refused. */
    method HandleRequestFrame(input: array<byte>, inputLen: nat, out: array<byte>)
      returns (ok: bool, len: nat, ghost sent: Option<Message>)
      requires Valid() && inputLen <= input.Length
      modifies this, out
      ensures Valid() && update == old(update) && crc == old(crc) && Wrote(sent, ok, len, out[..])
      ensures Sending(State(), sent) == RequestFrame(old(State()), old(input[..inputLen]), out.Length)
    {
      var b := input[..inputLen];
      if phase == Idle || Classify(b, id, WANTED) != ERR_NONE {
        return false, 0, None;
      }
      var decoded := DecodeMessage(b);
      if decoded.Some? {
        RequestFrameRefines(State(), b, out.Length);
        ok, len, sent := OnRequest(decoded.value, out);
        return;
      }
      lastNack := ERR_INTERNAL;
      ok, len, sent := Emit(ReadHeader(b).sender, Refused(update.id, ERR_INTERNAL, 0), out);
      if ok {
        phase := Idle;
      }
    }

    /** handle_ack_or_nack on bytes. */
    method HandleAnswerFrame(input: array<byte>, inputLen: nat) returns (verdict: Verdict)
      requires Valid() && inputLen <= input.Length
      modifies this
      ensures Valid() && update == old(update) && crc == old(crc)
      ensures (State(), verdict) == AnswerFrame(old(State()), input[..inputLen])
    {
      var decoded := DecodeMessage(input[..inputLen]);
      if decoded == None {
        return Nothing;
      }
      verdict := OnAnswer(decoded.value);
    }

    /** A wait is given up exactly when its retries are spent; until then the same batch goes to the same receiver. */
    method OnTimeout(out: array<byte>) returns (ok: bool, len: nat, ghost sent: Option<Message>)
      requires Valid()
      modifies this, out
      ensures Wrote(sent, ok, len, out[..])
      ensures Valid() && update == old(update) && crc == old(crc) && target == old(target)
      ensures phase == WaitAck <==> old(phase) == WaitAck && old(retries) < maxRetries
      ensures phase == WaitAck ==> retries as int == old(retries) + 1
      ensures sent.Some? <==>
                phase == WaitAck && id != 0 && target != 0 && update.id != 0 && out.Length >= UpdateLength(update)
      ensures sent.Some? ==> sent.value == Message(Header(id, target, old(seqNo)), Batch(update))
      ensures Sending(State(), sent) == OnAckTimeout(old(State()), out.Length)
    {
      if phase != WaitAck {
        return false, 0, None;
      }
      if retries >= maxRetries {
        phase := Idle;
        return false, 0, None;
      }
      retries := retries + 1;
      ok, len, sent := Emit(target, Batch(update), out);
    }
  }

  class ReceiverContext {
    var waiting: bool
    var id: u16
    var expectedSender: u16
    var seqNo: u16
    var maxRetries: u8
    var retries: u8
    var version: u32
    var last: Memory
    var pending: Pending

    ghost function State(): Model.Receiver
      reads this
    {
      Model.Receiver(waiting, id, expectedSender, seqNo, maxRetries, retries, version, last, pending)
    }

    ghost predicate Valid()
      reads this
    {
      retries <= maxRetries
    }

    constructor (id: u16, expectedSender: u16, maxRetries: u8, version: u32, lastId: u32)
      ensures Valid() && State() == ReceiverInit(id, expectedSender, maxRetries, version, lastId)
    {
      waiting, this.id, this.expectedSender, seqNo := false, id, expectedSender, 1;
      this.maxRetries, retries, this.version := maxRetries, 0, version;
      last := Memory(lastId, 0, id, 0, version, 0, 0, 0);
      pending := Pending(0, 0, 0, 0, 0, 0, 0);
    }

    /** Encodes a message and, if it went out, moves the sequence number on. */
    method Emit(to: u16, c: Content, out: array<byte>) returns (ok: bool, len: nat, ghost sent: Option<Message>)
      modifies this`seqNo, out
      ensures sent == Encoded(Message(Header(id, to, old(seqNo)), c), out.Length)
      ensures seqNo == if sent == None then old(seqNo) else Inc16(old(seqNo))
      ensures Wrote(sent, ok, len, out[..])
    {
      var m := Message(Header(id, to, seqNo), c);
      sent := Encoded(m, out.Length);
      ok, len := EncodeMessage(out, m);
      if ok {
        seqNo := Inc16(seqNo);
      }
    }

    /**
     A beacon is answered exactly when it is news from a sender listened to.
     The answer asks for what was announced, and from then on the announced
     update, and of that id no other, passes the comparison with the beacon,
     provided it starts at the receiver's version.
     */
    method OnBeacon(m: Message, out: array<byte>) returns (ok: bool, len: nat, ghost sent: Option<Message>)
      requires Valid()
      modifies this, out
      ensures Wrote(sent, ok, len, out[..])
      ensures Valid() && version == old(version) && last == old(last)
      ensures sent.Some? <==>
                m.content.Offer? && (expectedSender == 0 || m.header.sender == expectedSender) && m.content.to > version
                && id != 0 && m.header.sender != 0 && m.content.id != 0 && out.Length >= 18
      ensures sent.Some? ==>
                waiting && sent.value == Message(Header(id, m.header.sender, old(seqNo)), Wanted(m.content.id, version))
      ensures sent.Some? ==> forall u: Update :: Announces(m, u) && u.to > u.from ==>
                (AgainstOffer(State(), u) == ERR_NONE <==> u.from == version)
      ensures sent.Some? ==> forall u: Update :: u.id != m.content.id ==> AgainstOffer(State(), u) == ERR_UPDATE_ID_UNKNOWN
      ensures sent == None ==> State() == old(State())
      ensures Model.Reaction(State(), sent, false) == HandleBeacon(old(State()), m, out.Length)
    {
      if !m.content.Offer? || (expectedSender != 0 && m.header.sender != expectedSender) || m.content.to <= version {
        return false, 0, None;
      }
      var o := m.content;
      ok, len, sent := Emit(m.header.sender, Wanted(o.id, version), out);
      if ok {
        Note(m);
      }
    }

    /** Notes what a beacon announces and waits for it. */
    method Note(m: Message)
      requires m.content.Offer?
      modifies this`pending, this`waiting, this`retries
      ensures var o := m.content;
              && waiting && retries == 0
              && pending == Pending(o.id, o.from, o.to, o.removes, o.adds, o.size, o.crc)
      ensures forall u: Update :: Announces(m, u) && u.to > u.from ==>
              (AgainstOffer(State(), u) == ERR_NONE <==> u.from == version)
      ensures forall u: Update :: u.id != m.content.id ==> AgainstOffer(State(), u) == ERR_UPDATE_ID_UNKNOWN
    {
      var o := m.content;
      pending := Pending(o.id, o.from, o.to, o.removes, o.adds, o.size, o.crc);
      waiting, retries := true, 0;
      forall u: Update | Announces(m, u) && u.to > u.from
        ensures AgainstOffer(State(), u) == ERR_NONE <==> u.from == version
      {
        AnnouncedFits(State(), m, u);
      }
      forall u: Update | u.id != o.id ensures AgainstOffer(State(), u) == ERR_UPDATE_ID_UNKNOWN {
        OtherIdRefused(State(), u);
      }
    }

    /** handle_beacon on bytes. */
    method HandleBeaconFrame(input: array<byte>, inputLen: nat, out: array<byte>)
      returns (ok: bool, len: nat, ghost sent: Option<Message>)
      requires Valid() && inputLen <= input.Length
      modifies this, out
      ensures Valid() && version == old(version) && last == old(last) && Wrote(sent, ok, len, out[..])
      ensures Model.Reaction(State(), sent, false) == BeaconFrame(old(State()), old(input[..inputLen]), out.Length)
    {
      var decoded := DecodeMessage(input[..inputLen]);
      if decoded == None {
        return false, 0, None;
      }
      ok, len, sent := OnBeacon(decoded.value, out);
    }

    /** A wait is given up exactly when its retries are spent; until then the announced update is asked for again. */
    method OnTimeout(out: array<byte>) returns (ok: bool, len: nat, ghost sent: Option<Message>)
      requires Valid()
      modifies this, out
      ensures Wrote(sent, ok, len, out[..])
      ensures Valid() && version == old(version) && last == old(last) && pending == old(pending)
      ensures waiting <==> old(waiting) && old(retries) < maxRetries
      ensures waiting ==> retries as int == old(retries) + 1
      ensures sent.Some? <==> waiting && id != 0 && expectedSender != 0 && pending.id != 0 && out.Length >= 18
      ensures sent.Some? ==> sent.value == Message(Header(id, expectedSender, old(seqNo)), Wanted(pending.id, version))
      ensures Model.Reaction(State(), sent, false) == OnUpdateTimeout(old(State()), out.Length)
    {
      if !waiting {
        return false, 0, None;
      }
      if retries >= maxRetries {
        waiting := false;
        return false, 0, None;
      }
      retries := retries + 1;
      ok, len, sent := Emit(expectedSender, Wanted(pending.id, version), out);
    }

    /** validate_update_data. */
    method Check(m: Message) returns (error: u16)
      requires m.content.Batch?
      ensures error == Validate(State(), m)
    {
      var u := m.content.u;
      if !AddressedTo(m, id) || (expectedSender != 0 && m.header.sender != expectedSender) {
        return ERR_INVALID_RECEIVER_ID;
      }
      var ok;
      ok, error := ValidateNumbers(u.removes, u.adds);
      if !ok {
        return;
      }
      var payloadCrc := ComputePayloadCrc(u);
      if u.id == last.id {
        var same := m.header.sender == last.sender && m.header.receiver == last.receiver && u.from == last.from
          && u.to == last.to && |u.removes| == last.removes && |u.adds| == last.adds && payloadCrc == last.crc;
        return if same then ERR_NONE else ERR_UPDATE_ID_UNKNOWN;
      }
      error := CheckOffer(u, payloadCrc);
    }

    method CheckOffer(u: Update, payloadCrc: u16) returns (error: u16)
      requires payloadCrc == CrcOf(UpdatePayload(u))
      ensures error == AgainstOffer(State(), u)
    {
      var p := pending;
      if !waiting || u.id != p.id {
        return ERR_UPDATE_ID_UNKNOWN;
      }
      if u.from != version || u.from != p.from || u.to != p.to || u.to <= u.from {
        return ERR_VERSION_MISMATCH;
      }
      if |u.removes| != p.removes || |u.adds| != p.adds {
        return ERR_UPDATE_ID_UNKNOWN;
      }
      if 16 + 4 * |u.removes| + 4 * |u.adds| != p.size {
        return ERR_INTERNAL;
      }
      return if p.crc != 0 && payloadCrc != p.crc then ERR_CRC_FAIL else ERR_NONE;
    }

    /** The refusal of such a frame. */
    method OnGarbled(to: u16, error: u16, out: array<byte>) returns (ok: bool, len: nat, ghost sent: Option<Message>)
      modifies this`seqNo, out
      ensures Wrote(sent, ok, len, out[..])
      ensures Model.Reaction(State(), sent, false) == RefuseGarbled(old(State()), to, error, out.Length)
    {
      if out.Length < 18 {
        return false, 0, None;
      }
      ok, len, sent := Emit(to, Refused(pending.id, error, 0), out);
    }

    /**
     receiver_apply_update_data_to_num8. The engine is touched only by a batch
     that is new and passed every check, and the version moves only when the
     engine completed it; `failAt` is the engine call that fails, if any.
     */
    method OnBatch(m: Message, out: array<byte>, engine: Engine, failAt: nat, dirty: bool)
      returns (ok: bool, len: nat, ghost sent: Option<Message>)
      requires Valid() && m.content.Batch? && LegalMessage(m)
      modifies this, out, engine
      ensures Wrote(sent, ok, len, out[..])
      ensures Valid()
      ensures var u, r := m.content.u, HandleBatch(old(State()), m, out.Length, failAt > |Calls(m.content.u)|);
              && State() == r.state && sent == r.out
              && (!r.tried ==> engine.numbers == old(engine.numbers))
              && (r.tried && failAt > |Calls(u)| ==> engine.numbers == Fold(old(engine.numbers), Calls(u)))
              && (r.tried && failAt <= |Calls(u)| ==>
                    exists k :: 0 <= k <= |Calls(u)| && engine.numbers == Fold(old(engine.numbers), Calls(u)[..k]))
    {
      if out.Length < 18 {
        return false, 0, None;
      }
      var u := m.content.u;
      BatchReaction(State(), m, out.Length, failAt > |Calls(u)|);
      var reply, applied := TakeBatch(m, engine, failAt, dirty);
      ok, len, sent := Emit(m.header.sender, reply, out);
      if ok && applied {
        version, waiting := u.to, false;
        last := Memory(u.id, m.header.sender, id, u.from, u.to, |u.removes|, |u.adds|, pending.crc);
      }
    }

    /** Checks a batch, hands it to the engine if it is new, and decides on the answer. */
    method TakeBatch(m: Message, engine: Engine, failAt: nat, dirty: bool) returns (reply: Content, applied: bool)
      requires m.content.Batch?
      modifies engine
      ensures var u, works := m.content.u, failAt > |Calls(m.content.u)|;
              && applied == (Tries(State(), m) && works)
              && reply == ReplyTo(State(), m, works)
              && (!Tries(State(), m) ==> engine.numbers == old(engine.numbers))
              && (applied ==> engine.numbers == Fold(old(engine.numbers), Calls(u)))
              && (Tries(State(), m) && !works ==>
                    exists k :: 0 <= k <= |Calls(u)| && engine.numbers == Fold(old(engine.numbers), Calls(u)[..k]))
    {
      var u := m.content.u;
      var error := Check(m);
      applied := false;
      if error != ERR_NONE {
        reply := Refused(pending.id, error, 0);
      } else if u.id == last.id {
        reply := Done(u.id, version);
      } else {
        applied := engine.ApplyBatch(u, failAt, dirty);
        reply := if applied then Done(u.id, u.to) else Refused(u.id, ERR_BATCH_FAILED, 0);
      }
    }

    /** The first half of validate_update_data. */
    method Screen(b: seq<byte>) returns (error: u16)
      ensures error == BatchFrameError(State(), b)
    {
      error := Classify(b, id, UPDATE_DATA);
      if error != ERR_NONE {
        return;
      }
      if expectedSender != 0 && ReadHeader(b).sender != expectedSender {
        return ERR_INVALID_RECEIVER_ID;
      }
      return if DecodeMessage(b) == None then ERR_INTERNAL else ERR_NONE;
    }

    /**
     receiver_apply_update_data_to_num8 on bytes: a frame that is no batch for
     this receiver is refused under the pending id.
     */
    method HandleBatchFrame(input: array<byte>, inputLen: nat, out: array<byte>, engine: Engine, failAt: nat, dirty: bool)
      returns (ok: bool, len: nat, ghost sent: Option<Message>)
      requires Valid() && inputLen <= input.Length
      modifies this, out, engine
      ensures Valid() && Wrote(sent, ok, len, out[..])
      ensures var b := old(input[..inputLen]); var works := Completed(b, failAt);
              var r := BatchFrame(old(State()), b, out.Length, works);
              && State() == r.state && sent == r.out
              && (!r.tried ==> engine.numbers == old(engine.numbers))
              && (r.tried ==> Took(old(engine.numbers), engine.numbers, b, failAt))
    {
      var b := input[..inputLen];
      if inputLen < 8 {
        return false, 0, None;
      }
      var error := Screen(b);
      if error != ERR_NONE {
        ok, len, sent := OnGarbled(ReadHeader(b).sender, error, out);
        return;
      }
      NoErrorIsBatch(State(), b);
      ok, len, sent := OnBatch(DecodeMessage(b).value, out, engine, failAt, dirty);
    }
  }

  /** Whether the engine completes the batch in frame `b` if its call `failAt` fails. */
  predicate Completed(b: seq<byte>, failAt: nat) {
    match DecodeMessage(b)
    case Some(m) => m.content.Batch? && failAt > |Calls(m.content.u)|
    case None => false
  }

  /** All calls of the batch in frame `b` took effect if it was completed, otherwise the first few. */
  ghost predicate Took(before: set<u32>, after: set<u32>, b: seq<byte>, failAt: nat) {
    match DecodeMessage(b)
    case Some(m) =>
      m.content.Batch? && var calls := Calls(m.content.u);
      if failAt > |calls| then after == Fold(before, calls)
      else exists k :: 0 <= k <= |calls| && after == Fold(before, calls[..k])
    case None => false
  }
}
