/** The stop-and-wait batch protocol as values: one sender context, one receiver context, and their messages. */
module LegacyModel {
  import opened Words
  import opened Crc
  import opened Framing
  import opened UpdateFrames
  import opened Batches

  const ANY_RECEIVER: u16 := 0xFFFF

  const ERR_INVALID_RECEIVER_ID: u16 := 4
  const ERR_UPDATE_ID_UNKNOWN: u16 := 5
  const ERR_VERSION_MISMATCH: u16 := 6
  const ERR_BATCH_FAILED: u16 := 10
  const ERR_BUSY: u16 := 11
  const ERR_INTERNAL: u16 := 12
  const ERR_CRC_FAIL: u16 := 1

  datatype Content =
    | Offer(id: u32, from: u32, to: u32, removes: u8, adds: u8, size: u16, crc: u16)
    | Wanted(id: u32, version: u32)
    | Batch(u: Update)
    | Done(id: u32, version: u32)
    | Refused(id: u32, error: u16, detail: u16)

  datatype Message = Message(header: Header, content: Content)

  function PayloadSize(removes: u8, adds: u8): u16 {
    16 + 4 * (removes as int) + 4 * (adds as int)
  }

  /** What the legacy encoders accept. */
  predicate LegalMessage(m: Message) {
    m.header.sender != 0 && (m.header.receiver == 0 <==> m.content.Offer?) &&
    match m.content
    case Offer(id, from, to, removes, adds, size, _) => id != 0 && to > from && size == PayloadSize(removes, adds)
    case Wanted(id, _) => id != 0
    case Batch(u) => u.id != 0 && u.to > u.from
    case Done(id, version) => id != 0 && version != 0
    case Refused(id, _, _) => id != 0
  }

  function LengthOf(c: Content): nat {
    match c
    case Offer(_, _, _, _, _, _, _) => 28
    case Batch(u) => UpdateLength(u)
    case _ => 18
  }

  /** An encoded message, or nothing when its fields are illegal or the buffer too small. */
  function Encoded(m: Message, cap: nat): Option<Message> {
    if LegalMessage(m) && LengthOf(m.content) <= cap then Some(m) else None
  }

  /** The address check of classify_frame; 0xFFFF stands for any receiver. */
  predicate AddressedTo(m: Message, id: u16) {
    id == ANY_RECEIVER || m.header.receiver == if m.content.Offer? then 0 else id
  }

  /** A beacon that describes update `u`, its true payload checksum included. */
  predicate Announces(m: Message, u: Update) {
    m.content == Offer(u.id, u.from, u.to, |u.removes|, |u.adds|, PayloadSize(|u.removes|, |u.adds|),
        CrcOf(UpdatePayload(u)))
  }

  // ---------- Sender ----------

  datatype Phase = Idle | WaitRequest | WaitAck

  datatype Sender = Sender(
    phase: Phase, id: u16, target: u16, seqNo: u16, maxRetries: u8, retries: u8, update: Update, crc: u16, lastNack: u16)

  datatype Sending = Sending(state: Sender, out: Option<Message>)

  function SenderInit(id: u16, maxRetries: u8): Sender {
    Sender(Idle, id, 0, 1, maxRetries, 0, Update(0, 0, 0, [], []), 0, ERR_NONE)
  }

  /** set_update: the new state, or the error that kept the old one. */
  function SetUpdate(s: Sender, target: u16, u: Update): (Sender, u16) {
    if s.phase == WaitAck then (s, ERR_BUSY)
    else if u.to <= u.from then (s, ERR_VERSION_MISMATCH)
    else if NumbersError(u.removes, u.adds) != ERR_NONE then (s, NumbersError(u.removes, u.adds))
    else (s.(target := target, update := u, crc := CrcOf(UpdatePayload(u)), retries := 0, lastNack := ERR_NONE,
        phase := WaitRequest),
          ERR_NONE)
  }

  function OfferOf(s: Sender): Content {
    var u := s.update;
    Offer(u.id, u.from, u.to, |u.removes|, |u.adds|, PayloadSize(|u.removes|, |u.adds|), s.crc)
  }

  function BuildBeacon(s: Sender, cap: nat): Sending {
    var out := Encoded(Message(Header(s.id, 0, s.seqNo), OfferOf(s)), cap);
    if out == None then Sending(s, None) else Sending(s.(seqNo := Inc16(s.seqNo)), out)
  }

  /** handle_update_request. A refusal ends the exchange; otherwise the batch is sent and its ACK awaited. */
  function HandleRequest(s: Sender, m: Message, cap: nat): Sending
    requires LegalMessage(m)
  {
    if s.phase == Idle || !AddressedTo(m, s.id) || !m.content.Wanted? then Sending(s, None)
    else
      var wanted, to := m.content, m.header.sender;
      if wanted.id != s.update.id || wanted.version != s.update.from then
        var error := if wanted.id != s.update.id then ERR_UPDATE_ID_UNKNOWN else ERR_VERSION_MISMATCH;
        var noted := s.(lastNack := error);
        var out := Encoded(Message(Header(s.id, to, s.seqNo), Refused(wanted.id, error, 0)), cap);
        if out == None then Sending(noted, None) else Sending(noted.(seqNo := Inc16(s.seqNo), phase := Idle), out)
      else
        var out := Encoded(Message(Header(s.id, to, s.seqNo), Batch(s.update)), cap);
        if out == None then Sending(s, None)
        else Sending(s.(seqNo := Inc16(s.seqNo), target := to, phase := WaitAck, retries := 0), out)
  }

  /** When the batch goes out, and what else a request may lead to. */
  lemma RequestMeaning(s: Sender, m: Message, cap: nat)
    requires LegalMessage(m) && (s.phase != Idle ==> s.update.to > s.update.from)
    ensures var r := HandleRequest(s, m, cap);
            && r.state.update == s.update && r.state.crc == s.crc && r.state.id == s.id
            && (r.out.Some? && r.out.value.content.Batch? <==>
                  s.phase != Idle && AddressedTo(m, s.id) && m.content == Wanted(s.update.id, s.update.from)
                  && s.id != 0 && cap >= UpdateLength(s.update))
            && (r.out.Some? && r.out.value.content.Batch? ==>
                  r.out.value.content.u == s.update && r.out.value.header.receiver == m.header.sender == r.state.target &&
                  r.state.phase == WaitAck && r.state.retries == 0)
            && (r.out.Some? && !r.out.value.content.Batch? ==>
                  r.state.phase == Idle && r.state.lastNack != ERR_NONE && m.content.Wanted? &&
                  r.out.value.content == Refused(m.content.id, r.state.lastNack, 0))
            && (r.out == None ==> r.state == s.(lastNack := r.state.lastNack))
            && r.state.retries <= s.retries && r.state.maxRetries == s.maxRetries
  {}

  datatype Verdict = Nothing | Applied | Nacked

  /** handle_ack_or_nack. */
  function HandleAnswer(s: Sender, m: Message): (Sender, Verdict) {
    if s.phase != WaitAck || !AddressedTo(m, s.id) then (s, Nothing)
    else
      match m.content
      case Done(id, version) =>
        if id == s.update.id && version == s.update.to then (s.(phase := Idle, retries := 0), Applied) else (s, Nothing)
      case Refused(_, error, _) => (s.(lastNack := error, phase := Idle), Nacked)
      case _ => (s, Nothing)
  }

  /** on_ack_timeout. The retry is counted even if the frame does not fit. */
  function OnAckTimeout(s: Sender, cap: nat): Sending {
    if s.phase != WaitAck then Sending(s, None)
    else if s.retries >= s.maxRetries then Sending(s.(phase := Idle), None)
    else
      var again := s.(retries := s.retries + 1);
      var out := Encoded(Message(Header(s.id, s.target, s.seqNo), Batch(s.update)), cap);
      if out == None then Sending(again, None) else Sending(again.(seqNo := Inc16(s.seqNo)), out)
  }

  // ---------- Receiver ----------

  /** What is remembered of the batch applied last, to recognise its retransmissions. */
  datatype Memory = Memory(id: u32, sender: u16, receiver: u16, from: u32, to: u32, removes: u8, adds: u8, crc: u16)

  /** What the last accepted beacon announced. */
  datatype Pending = Pending(id: u32, from: u32, to: u32, removes: u8, adds: u8, size: u16, crc: u16)

  datatype Receiver = Receiver(
    waiting: bool, id: u16, expectedSender: u16, seqNo: u16, maxRetries: u8, retries: u8,
    version: u32, last: Memory, pending: Pending)

  /** `tried`: the batch was handed to the engine. */
  datatype Reaction = Reaction(state: Receiver, out: Option<Message>, tried: bool)

  function ReceiverInit(id: u16, expectedSender: u16, maxRetries: u8, version: u32, lastId: u32): Receiver {
    Receiver(false, id, expectedSender, 1, maxRetries, 0, version, Memory(lastId, 0, id, 0, version, 0, 0, 0),
             Pending(0, 0, 0, 0, 0, 0, 0))
  }

  function HandleBeacon(r: Receiver, m: Message, cap: nat): Reaction {
    if !m.content.Offer? || (r.expectedSender != 0 && m.header.sender != r.expectedSender) || m.content.to <= r.version
    then Reaction(r, None, false)
    else
      var o := m.content;
      var out := Encoded(Message(Header(r.id, m.header.sender, r.seqNo), Wanted(o.id, r.version)), cap);
      if out == None then Reaction(r, None, false)
      else
        Reaction(r.(seqNo := Inc16(r.seqNo), pending := Pending(o.id, o.from, o.to, o.removes, o.adds, o.size, o.crc),
                    waiting := true, retries := 0), out, false)
  }

  function OnUpdateTimeout(r: Receiver, cap: nat): Reaction {
    if !r.waiting then Reaction(r, None, false)
    else if r.retries >= r.maxRetries then Reaction(r.(waiting := false), None, false)
    else
      var again := r.(retries := r.retries + 1);
      var out := Encoded(Message(Header(r.id, r.expectedSender, r.seqNo), Wanted(r.pending.id, r.version)), cap);
      if out == None then Reaction(again, None, false) else Reaction(again.(seqNo := Inc16(r.seqNo)), out, false)
  }

  /** Whether a batch is the remembered one, received again. */
  predicate Repeats(r: Receiver, h: Header, u: Update) {
    && h.sender == r.last.sender && h.receiver == r.last.receiver
    && u.from == r.last.from && u.to == r.last.to
    && |u.removes| == r.last.removes && |u.adds| == r.last.adds
    && CrcOf(UpdatePayload(u)) == r.last.crc
  }

  /** validate_update_data: the error that refuses the batch, or ERR_NONE. */
  function Validate(r: Receiver, m: Message): u16
    requires m.content.Batch?
  {
    var u := m.content.u;
    if !AddressedTo(m, r.id) then ERR_INVALID_RECEIVER_ID
    else if r.expectedSender != 0 && m.header.sender != r.expectedSender then ERR_INVALID_RECEIVER_ID
    else if NumbersError(u.removes, u.adds) != ERR_NONE then NumbersError(u.removes, u.adds)
    else if u.id == r.last.id then if Repeats(r, m.header, u) then ERR_NONE else ERR_UPDATE_ID_UNKNOWN
    else AgainstOffer(r, u)
  }

  /** The part of validate_update_data that compares a new batch with the beacon that announced it. */
  function AgainstOffer(r: Receiver, u: Update): u16 {
    var p := r.pending;
    if !r.waiting || u.id != p.id then ERR_UPDATE_ID_UNKNOWN
    else if u.from != r.version || u.from != p.from || u.to != p.to || u.to <= u.from then ERR_VERSION_MISMATCH
    else if |u.removes| != p.removes || |u.adds| != p.adds then ERR_UPDATE_ID_UNKNOWN
    else if PayloadSize(|u.removes|, |u.adds|) != p.size then ERR_INTERNAL
    else if p.crc != 0 && CrcOf(UpdatePayload(u)) != p.crc then ERR_CRC_FAIL
    else ERR_NONE
  }

  /** An update fits the beacon that announced it, provided it starts at the receiver's version. */
  lemma AnnouncedFits(r: Receiver, m: Message, u: Update)
    requires Announces(m, u) && u.to > u.from && r.waiting
    requires var o := m.content; r.pending == Pending(o.id, o.from, o.to, o.removes, o.adds, o.size, o.crc)
    ensures AgainstOffer(r, u) == ERR_NONE <==> u.from == r.version
  {}

  lemma OtherIdRefused(r: Receiver, u: Update)
    requires u.id != r.pending.id
    ensures AgainstOffer(r, u) == ERR_UPDATE_ID_UNKNOWN
  {}

  function Say(r: Receiver, to: u16, c: Content, cap: nat): Reaction {
    var out := Encoded(Message(Header(r.id, to, r.seqNo), c), cap);
    Reaction(if out == None then r else r.(seqNo := Inc16(r.seqNo)), out, false)
  }

  /** What the bridge answers to a batch frame it could not validate at all, such as one with a broken checksum. */
  function RefuseGarbled(r: Receiver, to: u16, error: u16, cap: nat): Reaction {
    if cap < 18 then Reaction(r, None, false) else Say(r, to, Refused(r.pending.id, error, 0), cap)
  }

  /** The context after a batch was applied and acknowledged. */
  function Advanced(r: Receiver, h: Header, u: Update): Receiver {
    r.(version := u.to, waiting := false, seqNo := Inc16(r.seqNo),
       last := Memory(u.id, h.sender, r.id, u.from, u.to, |u.removes|, |u.adds|, r.pending.crc))
  }

  /** receiver_apply_update_data_to_num8; `works` says whether the engine completes the batch. */
  function HandleBatch(r: Receiver, m: Message, cap: nat, works: bool): Reaction
    requires m.content.Batch? && LegalMessage(m)
  {
    var to, u, error := m.header.sender, m.content.u, Validate(r, m);
    if cap < 18 then Reaction(r, None, false)
    else if error != ERR_NONE then Say(r, to, Refused(r.pending.id, error, 0), cap)
    else if u.id == r.last.id then Say(r, to, Done(u.id, r.version), cap)
    else if !works then Say(r, to, Refused(u.id, ERR_BATCH_FAILED, 0), cap).(tried := true)
    else
      var out := Encoded(Message(Header(r.id, to, r.seqNo), Done(u.id, u.to)), cap);
      if out == None then Reaction(r, None, true) else Reaction(Advanced(r, m.header, u), out, true)
  }

  /** Whether a batch is handed to the engine. */
  predicate Tries(r: Receiver, m: Message)
    requires m.content.Batch?
  {
    Validate(r, m) == ERR_NONE && m.content.u.id != r.last.id
  }

  /** The answer to a batch. */
  function ReplyTo(r: Receiver, m: Message, works: bool): Content
    requires m.content.Batch?
  {
    var u, error := m.content.u, Validate(r, m);
    if error != ERR_NONE then Refused(r.pending.id, error, 0)
    else if u.id == r.last.id then Done(u.id, r.version)
    else if works then Done(u.id, u.to)
    else Refused(u.id, ERR_BATCH_FAILED, 0)
  }

  /** The reaction to a batch in one piece: the version moves only with a completed batch whose ACK went out. */
  lemma BatchReaction(r: Receiver, m: Message, cap: nat, works: bool)
    requires m.content.Batch? && LegalMessage(m) && cap >= 18
    ensures var e := HandleBatch(r, m, cap, works);
            && e.tried == Tries(r, m)
            && e.out == Encoded(Message(Header(r.id, m.header.sender, r.seqNo), ReplyTo(r, m, works)), cap)
            && e.state == if e.out == None then r
                          else if e.tried && works then Advanced(r, m.header, m.content.u) else r.(seqNo := Inc16(r.seqNo))
  {}
}
