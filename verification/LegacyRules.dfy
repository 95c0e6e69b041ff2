/** What each call of the batch protocol does, in terms of the context's fields and the message alone. */
module LegacyRules {
  import opened Words
  import opened Crc
  import opened Framing
  import opened UpdateFrames
  import opened Batches
  import opened LegacyModel

  // ---------- Which error a batch gets ----------

  /** Value `i` is in range and does not occur again later. */
  predicate Unobjectionable(values: seq<u32>, i: nat) {
    i < |values| && values[i] <= 99_999_999 && forall j :: i < j < |values| ==> values[j] != values[i]
  }

  /** The scan stops at the first objectionable value: out of range, or else occurring again later. */
  lemma {:induction false} ScanRule(values: seq<u32>, from: nat) returns (i: nat)
    requires from <= |values|
    ensures from <= i <= |values| && forall k: nat :: from <= k < i ==> Unobjectionable(values, k)
    ensures i < |values| ==> !Unobjectionable(values, i)
    ensures ListError(values, from) == if i == |values| then 0 else if values[i] > 99_999_999 then 7 else 8
    decreases |values| - from
  {
    if from == |values| || !Unobjectionable(values, from) {
      i := from;
    } else {
      i := ScanRule(values, from + 1);
    }
  }

  /** Removes are scanned first, then adds, then the two are compared. */
  lemma VerdictRule(removes: seq<u32>, adds: seq<u32>)
    ensures var (r, a, error) := (ListError(removes, 0), ListError(adds, 0), NumbersError(removes, adds));
            && (r != 0 ==> error == r) && (r == 0 && a != 0 ==> error == a)
            && (r == 0 && a == 0 ==>
                  error == if exists i, j :: 0 <= i < |removes| && 0 <= j < |adds| && removes[i] == adds[j] then 9 else 0)
  {
    var i := ScanRule(removes, 0);
    var j := ScanRule(adds, 0);
  }

  // ---------- Messages ----------

  /** What the encoders accept, and how long the frames are. */
  lemma EncodedExactly(m: Message, cap: nat)
    ensures Encoded(m, cap).Some? <==>
              && m.header.sender != 0
              && match m.content
                 case Offer(id, from, to, removes, adds, size, _) =>
                   m.header.receiver == 0 && id != 0 && to > from && size as int == 16 + 4 * removes + 4 * adds && cap >= 28
                 case Wanted(id, _) => m.header.receiver != 0 && id != 0 && cap >= 18
                 case Batch(u) =>
                   m.header.receiver != 0 && u.id != 0 && u.to > u.from && cap >= 26 + 4 * |u.removes| + 4 * |u.adds|
                 case Done(id, version) => m.header.receiver != 0 && id != 0 && version != 0 && cap >= 18
                 case Refused(id, _, _) => m.header.receiver != 0 && id != 0 && cap >= 18
    ensures Encoded(m, cap).Some? ==> Encoded(m, cap).value == m
  {}

  /** The wildcard id takes every message, another id only its own; beacons have no receiver. */
  lemma AddressRule(m: Message, id: u16)
    ensures AddressedTo(m, id) <==>
              id == 65535 || if m.content.Offer? then m.header.receiver == 0 else m.header.receiver == id
  {}

  function Next(seqNo: u16): int {
    (seqNo as int + 1) % 65536
  }

  /** A context's sequence number moves on, round its width, exactly with each message sent. */
  predicate Counts(before: u16, after: u16, sent: bool) {
    after as int == if sent then Next(before) else before
  }

  // ---------- The sender ----------

  lemma SenderInitRule(id: u16, maxRetries: u8)
    ensures SenderInit(id, maxRetries) == Sender(Idle, id, 0, 1, maxRetries, 0, Update(0, 0, 0, [], []), 0, 0)
  {}

  /** set_update: busy, a version that does not rise, or the verdict on the numbers; else everything is set afresh. */
  lemma SetUpdateRule(s: Sender, target: u16, u: Update)
    ensures var (t, error) := SetUpdate(s, target, u);
            && error == (if s.phase == WaitAck then 11 else if u.to <= u.from then 6 else NumbersError(u.removes, u.adds))
            && t == if error != 0 then s
                    else Sender(WaitRequest, s.id, target, s.seqNo, s.maxRetries, 0, u, CrcOf(UpdatePayload(u)), 0)
  {}

  /** The beacon tells the update's id, versions, counts, payload size and the checksum kept. */
  lemma BeaconRule(s: Sender, cap: nat)
    ensures var r, u := BuildBeacon(s, cap), s.update;
            && (r.out.Some? <==> s.id != 0 && u.id != 0 && u.to > u.from && cap >= 28)
            && (r.out.Some? ==>
                  && r.out.value.header == Header(s.id, 0, s.seqNo)
                  && r.out.value.content
                     == Offer(u.id, u.from, u.to, |u.removes|, |u.adds|, 16 + 4 * |u.removes| + 4 * |u.adds|, s.crc))
            && r.state == s.(seqNo := r.state.seqNo) && Counts(s.seqNo, r.state.seqNo, r.out.Some?)
  {}

  /** A request the sender looks at: it is one, for this sender, while an update is on offer or its ACK awaited. */
  predicate Heard(s: Sender, m: Message) {
    s.phase != Idle && m.content.Wanted? && (s.id == 65535 || m.header.receiver == s.id)
  }

  /** Why a request is refused: 5 for another update, 6 for another version, 0 if it is not. */
  function RequestError(s: Sender, m: Message): u16
    requires m.content.Wanted?
  {
    if m.content.id != s.update.id then 5 else if m.content.version != s.update.from then 6 else 0
  }

  lemma RequestRule(s: Sender, m: Message, cap: nat)
    requires LegalMessage(m)
    ensures var r := HandleRequest(s, m, cap);
            && (!Heard(s, m) ==> r == Sending(s, None))
            && (Heard(s, m) ==>
                  var error, to, u := RequestError(s, m), m.header.sender, s.update;
                  && (r.out.Some? <==> s.id != 0 && if error != 0 then cap >= 18
                                                    else u.id != 0 && u.to > u.from
                                                         && cap >= 26 + 4 * |u.removes| + 4 * |u.adds|)
                  && (r.out.Some? ==>
                        && r.out.value.header == Header(s.id, to, s.seqNo)
                        && r.out.value.content == if error != 0 then Refused(m.content.id, error, 0) else Batch(u))
                  && Counts(s.seqNo, r.state.seqNo, r.out.Some?)
                  && r.state == if error != 0
                                then s.(seqNo := r.state.seqNo, lastNack := error,
                                        phase := if r.out.Some? then Idle else s.phase)
                                else if r.out == None then s
                                else s.(seqNo := r.state.seqNo, target := to, phase := WaitAck, retries := 0))
  {}

  /** Only the awaited update's ACK at its target version is APPLIED; any NACK ends the wait and leaves its reason. */
  lemma AnswerRule(s: Sender, m: Message)
    ensures var (t, verdict) := HandleAnswer(s, m);
            var mine := s.phase == WaitAck && (s.id == 65535 || (m.header.receiver == s.id && !m.content.Offer?));
            && (verdict == Applied <==> mine && m.content == Done(s.update.id, s.update.to))
            && (verdict == Nacked <==> mine && m.content.Refused?)
            && t == match verdict
                    case Applied => s.(phase := Idle, retries := 0)
                    case Nacked => s.(phase := Idle, lastNack := m.content.error)
                    case Nothing => s
  {}

  /** A timeout gives up once the retries are spent; before that it counts one and repeats the batch to the same receiver. */
  lemma AckTimeoutRule(s: Sender, cap: nat)
    ensures var r, u := OnAckTimeout(s, cap), s.update;
            && (s.phase != WaitAck ==> r == Sending(s, None))
            && (s.phase == WaitAck && s.retries >= s.maxRetries ==> r == Sending(s.(phase := Idle), None))
            && (s.phase == WaitAck && s.retries < s.maxRetries ==>
                  && (r.out.Some? <==> s.id != 0 && s.target != 0 && u.id != 0 && u.to > u.from
                                       && cap >= 26 + 4 * |u.removes| + 4 * |u.adds|)
                  && (r.out.Some? ==> r.out.value == Message(Header(s.id, s.target, s.seqNo), Batch(u)))
                  && r.state == s.(retries := s.retries + 1, seqNo := r.state.seqNo)
                  && Counts(s.seqNo, r.state.seqNo, r.out.Some?))
  {}

  // ---------- The receiver ----------

  lemma ReceiverInitRule(id: u16, expectedSender: u16, maxRetries: u8, version: u32, lastId: u32)
    ensures ReceiverInit(id, expectedSender, maxRetries, version, lastId)
         == Receiver(false, id, expectedSender, 1, maxRetries, 0, version, Memory(lastId, 0, id, 0, version, 0, 0, 0),
                     Pending(0, 0, 0, 0, 0, 0, 0))
  {}

  /** A beacon with a higher version from a sender listened to is noted and answered with a request for it. */
  lemma OfferRule(r: Receiver, m: Message, cap: nat)
    ensures var e, o := HandleBeacon(r, m, cap), m.content;
            && (e.out.Some? <==>
                  && o.Offer? && (r.expectedSender == 0 || m.header.sender == r.expectedSender) && o.to > r.version
                  && r.id != 0 && m.header.sender != 0 && o.id != 0 && cap >= 18)
            && !e.tried
            && (e.out == None ==> e.state == r)
            && (e.out.Some? ==>
                  && e.out.value == Message(Header(r.id, m.header.sender, r.seqNo), Wanted(o.id, r.version))
                  && e.state == r.(waiting := true, retries := 0, seqNo := e.state.seqNo,
                                   pending := Pending(o.id, o.from, o.to, o.removes, o.adds, o.size, o.crc))
                  && Counts(r.seqNo, e.state.seqNo, true))
  {}

  lemma UpdateTimeoutRule(r: Receiver, cap: nat)
    ensures var e := OnUpdateTimeout(r, cap);
            && !e.tried
            && (!r.waiting ==> e.state == r && e.out == None)
            && (r.waiting && r.retries >= r.maxRetries ==> e.state == r.(waiting := false) && e.out == None)
            && (r.waiting && r.retries < r.maxRetries ==>
                  && (e.out.Some? <==> r.id != 0 && r.expectedSender != 0 && r.pending.id != 0 && cap >= 18)
                  && (e.out.Some? ==>
                        e.out.value == Message(Header(r.id, r.expectedSender, r.seqNo), Wanted(r.pending.id, r.version)))
                  && e.state == r.(retries := r.retries + 1, seqNo := e.state.seqNo)
                  && Counts(r.seqNo, e.state.seqNo, e.out.Some?))
  {}

  /** Whether a batch with the id applied last is that batch: sender, receiver, versions, counts and checksum agree. */
  predicate SameAsLast(r: Receiver, m: Message)
    requires m.content.Batch?
  {
    var u, l := m.content.u, r.last;
    && m.header.sender == l.sender && m.header.receiver == l.receiver && u.from == l.from && u.to == l.to
    && |u.removes| as int == l.removes && |u.adds| as int == l.adds && CrcOf(UpdatePayload(u)) == l.crc
  }

  /** The error a batch gets, check by check, and 0 if it passes them all. */
  lemma ValidateRule(r: Receiver, m: Message)
    requires m.content.Batch?
    ensures var u, p, error := m.content.u, r.pending, Validate(r, m);
            var numbers := NumbersError(u.removes, u.adds);
            var mine := (r.id == 65535 || m.header.receiver == r.id)
                        && (r.expectedSender == 0 || m.header.sender == r.expectedSender);
            && (!mine ==> error == 4)
            && (mine && numbers != 0 ==> error == numbers)
            && (mine && numbers == 0 && u.id == r.last.id ==> error == if SameAsLast(r, m) then 0 else 5)
            && (mine && numbers == 0 && u.id != r.last.id ==>
                  error == if !r.waiting || u.id != p.id then 5
                           else if u.from != r.version || u.from != p.from || u.to != p.to || u.to <= u.from then 6
                           else if |u.removes| as int != p.removes || |u.adds| as int != p.adds then 5
                           else if 16 + 4 * |u.removes| + 4 * |u.adds| != p.size then 12
                           else if p.crc != 0 && CrcOf(UpdatePayload(u)) != p.crc then 1
                           else 0)
  {}

  /** The reason given for refusing a batch or a frame that is none, always under an id and with detail 0. */
  lemma GarbledRule(r: Receiver, to: u16, error: u16, cap: nat)
    ensures var e := RefuseGarbled(r, to, error, cap);
            && (e.out.Some? <==> cap >= 18 && r.id != 0 && to != 0 && r.pending.id != 0)
            && (e.out.Some? ==> e.out.value == Message(Header(r.id, to, r.seqNo), Refused(r.pending.id, error, 0)))
            && !e.tried && e.state == r.(seqNo := e.state.seqNo) && Counts(r.seqNo, e.state.seqNo, e.out.Some?)
  {}

  /** The answer: a refusal under the pending id, an ACK at the version held, an ACK of the new one, or error 10. */
  function BatchAnswer(r: Receiver, u: Update, error: u16, works: bool): Content {
    if error != 0 then Refused(r.pending.id, error, 0)
    else if u.id == r.last.id then Done(u.id, r.version)
    else if works then Done(u.id, u.to)
    else Refused(u.id, 10, 0)
  }

  /**
   The engine is handed exactly a batch that passes and is not the last one; the
   answer goes to its sender; and only with the ACK of a completed one do
   version and memory move, the checksum remembered being the one announced.
   */
  lemma BatchRule(r: Receiver, m: Message, cap: nat, works: bool)
    requires m.content.Batch? && LegalMessage(m) && cap >= 18
    ensures var e, u, error := HandleBatch(r, m, cap, works), m.content.u, Validate(r, m);
            && (e.tried <==> error == 0 && u.id != r.last.id)
            && e.out == Encoded(Message(Header(r.id, m.header.sender, r.seqNo), BatchAnswer(r, u, error, works)), cap)
            && Counts(r.seqNo, e.state.seqNo, e.out.Some?)
            && e.state == if e.tried && works && e.out.Some?
                          then Receiver(false, r.id, r.expectedSender, e.state.seqNo, r.maxRetries, r.retries, u.to,
                                        Memory(u.id, m.header.sender, r.id, u.from, u.to,
                                               |u.removes|, |u.adds|, r.pending.crc), r.pending)
                          else r.(seqNo := e.state.seqNo)
  {
    BatchReaction(r, m, cap, works);
  }

  lemma NoRoom(r: Receiver, m: Message, cap: nat, works: bool)
    requires m.content.Batch? && LegalMessage(m) && cap < 18
    ensures HandleBatch(r, m, cap, works) == Reaction(r, None, false)
  {}
}
