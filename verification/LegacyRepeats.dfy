/**
 Duplicate tolerance of the batch protocol: in every run of the two modelled
 endpoints the batch applied last is recognised when it arrives again.
 */
module LegacyRepeats {
  import opened Words
  import opened Bits
  import opened Crc
  import opened CrcDetection
  import opened Framing
  import opened Runs
  import opened UpdateFrames
  import opened Batches
  import opened LegacyModel
  import opened LegacyChain
  import LegacyExchange

  predicate OfferFits(o: Pending, u: Update) {
    && o.id == u.id && o.from == u.from && o.to == u.to && o.removes == |u.removes| && o.adds == |u.adds|
    && o.crc == CrcOf(UpdatePayload(u))
  }

  function OfferIn(c: Content): Pending
    requires c.Offer?
  {
    Pending(c.id, c.from, c.to, c.removes, c.adds, c.size, c.crc)
  }

  ghost predicate OffersGiven(given: set<Update>, o: Pending) {
    exists u :: u in given && OfferFits(o, u)
  }

  /** What is remembered is the batch `u` of sender `id`, its true checksum included. */
  predicate MemoryFits(r: Receiver, id: u16, u: Update) {
    && r.last == Memory(u.id, id, r.id, u.from, u.to, |u.removes|, |u.adds|, CrcOf(UpdatePayload(u)))
    && (r.expectedSender == 0 || r.expectedSender == id)
  }

  ghost predicate MessageTrue(s: System, m: Message) {
    && (m.content.Offer? ==> OffersGiven(s.given, OfferIn(m.content)))
    && (m.content.Batch? ==> m.header.sender == s.sender.id)
  }

  /** Sender, messages and receiver speak of updates as they were given. */
  ghost predicate Truthful(s: System) {
    && (s.sender.update.id != 0 ==> s.sender.crc == CrcOf(UpdatePayload(s.sender.update)))
    && (forall m :: m in s.net ==> MessageTrue(s, m))
    && (s.receiver.waiting ==> OffersGiven(s.given, s.receiver.pending))
    && (s.done != [] ==> MemoryFits(s.receiver, s.sender.id, s.done[|s.done| - 1]))
  }

  ghost predicate Kept(s: System, base: u32) {
    Chained(s, base) && Truthful(s)
  }

  // ---------- Sender steps ----------

  /** The sender's messages speak of its update. */
  ghost predicate TellsTruth(a: Sender, r: Sending) {
    && r.state.update == a.update && r.state.crc == a.crc && r.state.id == a.id
    && (r.out.Some? ==> LegalMessage(r.out.value))
    && (r.out.Some? && r.out.value.content.Batch? ==> r.out.value.header.sender == a.id)
    && (r.out.Some? && r.out.value.content.Offer? ==> a.update.id != 0 && r.out.value.content == OfferOf(a))
  }

  lemma SenderTruth(a: Sender, cap: nat)
    ensures TellsTruth(a, BuildBeacon(a, cap)) && TellsTruth(a, OnAckTimeout(a, cap))
  {}

  lemma RequestTruth(a: Sender, m: Message, cap: nat)
    requires LegalMessage(m)
    ensures TellsTruth(a, HandleRequest(a, m, cap))
  {}

  lemma SenderKeeps(s: System, base: u32, r: Sending)
    requires Kept(s, base) && TellsTruth(s.sender, r)
    ensures Truthful(s.(sender := r.state, net := Put(s.net, r.out)))
  {
    var t := s.(sender := r.state, net := Put(s.net, r.out));
    forall m | m in t.net ensures MessageTrue(t, m) {
      if m in s.net {
        assert MessageTrue(s, m);
      } else if m.content.Offer? {
        OfferTrue(s, m);
      }
    }
  }

  lemma OfferTrue(s: System, m: Message)
    requires m.content.Offer? && m.content == OfferOf(s.sender) && s.sender.update in s.given
    requires s.sender.crc == CrcOf(UpdatePayload(s.sender.update))
    ensures OffersGiven(s.given, OfferIn(m.content))
  {
    assert OfferFits(OfferIn(m.content), s.sender.update);
  }

  // ---------- Receiver steps ----------

  /** The receiver's messages are no offers and no batches; its memory stays, its pending offer may be replaced by `o`. */
  ghost predicate Notes(a: Receiver, r: Reaction, o: Option<Pending>) {
    && r.state.last == a.last && r.state.id == a.id && r.state.expectedSender == a.expectedSender
    && (r.out.Some? ==> !r.out.value.content.Offer? && !r.out.value.content.Batch?)
    && (r.state.waiting ==> (a.waiting && r.state.pending == a.pending) || o == Some(r.state.pending))
  }

  function Heard(m: Message): Option<Pending> {
    if m.content.Offer? then Some(OfferIn(m.content)) else None
  }

  lemma TimeoutNotes(a: Receiver, cap: nat, to: u16, error: u16)
    ensures Notes(a, OnUpdateTimeout(a, cap), None) && Notes(a, RefuseGarbled(a, to, error, cap), None)
  {}

  lemma BeaconNotes(a: Receiver, m: Message, cap: nat)
    ensures Notes(a, HandleBeacon(a, m, cap), Heard(m))
  {}

  lemma OldBatchNotes(a: Receiver, m: Message, cap: nat, works: bool)
    requires m.content.Batch? && LegalMessage(m)
    ensures var r := HandleBatch(a, m, cap, works); !(r.tried && works) ==> Notes(a, r, None)
  {}

  lemma ReceiverKeeps(s: System, base: u32, r: Reaction, o: Option<Pending>)
    requires Kept(s, base) && Notes(s.receiver, r, o) && (o.Some? ==> OffersGiven(s.given, o.value))
    ensures Truthful(s.(receiver := r.state, net := Put(s.net, r.out)))
  {
    var t := s.(receiver := r.state, net := Put(s.net, r.out));
    forall m | m in t.net ensures MessageTrue(t, m) {
      assert m in s.net ==> MessageTrue(s, m);
    }
  }

  /** A completed batch is the one announced, since ids are not reused; so its true checksum is remembered. */
  lemma CompletedIsAnnounced(s: System, base: u32, m: Message, cap: nat)
    requires Kept(s, base) && m in s.net && LegalMessage(m) && m.content.Batch?
    requires HandleBatch(s.receiver, m, cap, true).tried
    ensures var r := HandleBatch(s.receiver, m, cap, true);
            && MemoryFits(r.state, s.sender.id, m.content.u) && !r.state.waiting
            && (r.out.Some? ==> !r.out.value.content.Offer? && !r.out.value.content.Batch?)
  {
    var u := m.content.u;
    assert MessageOk(s, m) && MessageTrue(s, m);
    NewBatch(s.receiver, m, cap);
    LegacyExchange.FirstTime(s.receiver, m, cap);
    WasWaiting(s.receiver, m, cap);
    var g :| g in s.given && OfferFits(s.receiver.pending, g);
    assert g == u;
  }

  lemma WasWaiting(r: Receiver, m: Message, cap: nat)
    requires m.content.Batch? && LegalMessage(m) && HandleBatch(r, m, cap, true).tried
    ensures r.waiting && r.pending.id == m.content.u.id
  {}

  lemma CompletedKeeps(s: System, base: u32, m: Message, cap: nat)
    requires Kept(s, base) && m in s.net && LegalMessage(m) && m.content.Batch?
    requires HandleBatch(s.receiver, m, cap, true).tried
    ensures var r := HandleBatch(s.receiver, m, cap, true);
            Truthful(s.(receiver := r.state, net := Put(s.net, r.out), done := s.done + [m.content.u]))
  {
    var r := HandleBatch(s.receiver, m, cap, true);
    var t := s.(receiver := r.state, net := Put(s.net, r.out), done := s.done + [m.content.u]);
    CompletedIsAnnounced(s, base, m, cap);
    forall x | x in t.net ensures MessageTrue(t, x) {
      assert x in s.net ==> MessageTrue(s, x);
    }
  }

  // ---------- All steps ----------

  lemma GiveKeeps(s: System, base: u32, target: u16, u: Update)
    requires Kept(s, base) && Enabled(s, Give(target, u))
    ensures Truthful(Step(s, Give(target, u)))
  {
    var t := Step(s, Give(target, u));
    GiveTruth(s.sender, target, u);
    forall m | m in t.net ensures MessageTrue(t, m) {
      assert MessageTrue(s, m);
    }
  }

  lemma GiveTruth(a: Sender, target: u16, u: Update)
    ensures var (b, error) := SetUpdate(a, target, u);
            b.id == a.id && if error == ERR_NONE then b.update == u && b.crc == CrcOf(UpdatePayload(u)) else b == a
  {}

  lemma AnswerTruth(a: Sender, m: Message)
    ensures TellsTruth(a, Sending(HandleAnswer(a, m).0, None))
  {}

  lemma AnswerKeeps(s: System, base: u32, m: Message)
    requires Kept(s, base) && m in s.net
    ensures Truthful(Step(s, AnswerIn(m)))
  {
    var b := HandleAnswer(s.sender, m).0;
    AnswerTruth(s.sender, m);
    SenderKeeps(s, base, Sending(b, None));
    assert s.(sender := b, net := Put(s.net, None)) == Step(s, AnswerIn(m)).(confirmed := s.confirmed);
    Unconfirmed(s.(sender := b), Step(s, AnswerIn(m)));
  }

  lemma Unconfirmed(s: System, t: System)
    requires Truthful(s) && t == s.(confirmed := t.confirmed)
    ensures Truthful(t)
  {
    forall m | m in t.net ensures MessageTrue(t, m) {
      assert MessageTrue(s, m);
    }
  }

  lemma BatchKeeps(s: System, base: u32, m: Message, cap: nat, outcome: Outcome)
    requires Kept(s, base) && Enabled(s, BatchIn(m, cap, outcome))
    ensures Truthful(Step(s, BatchIn(m, cap, outcome)))
  {
    var r := HandleBatch(s.receiver, m, cap, outcome.Completes?);
    if r.tried && outcome.Completes? {
      CompletedKeeps(s, base, m, cap);
      var applied := s.(receiver := r.state, net := Put(s.net, r.out), done := s.done + [m.content.u]);
      SameTruth(applied, Step(s, BatchIn(m, cap, outcome)));
    } else {
      OldBatchNotes(s.receiver, m, cap, outcome.Completes?);
      ReceiverKeeps(s, base, r, None);
      SameTruth(s.(receiver := r.state, net := Put(s.net, r.out)), Step(s, BatchIn(m, cap, outcome)));
    }
  }

  lemma SameTruth(s: System, t: System)
    requires Truthful(s) && t == s.(numbers := t.numbers, partial := t.partial)
    ensures Truthful(t)
  {
    forall m | m in t.net ensures MessageTrue(t, m) {
      assert MessageTrue(s, m);
    }
  }

  lemma ReceiverHears(s: System, base: u32, r: Reaction, m: Message)
    requires Kept(s, base) && m in s.net && Notes(s.receiver, r, Heard(m))
    ensures Truthful(s.(receiver := r.state, net := Put(s.net, r.out)))
  {
    assert MessageTrue(s, m);
    ReceiverKeeps(s, base, r, Heard(m));
  }

  lemma ReceiverEventKeeps(s: System, base: u32, e: Event)
    requires Kept(s, base) && Enabled(s, e) && (e.BeaconIn? || e.UpdateTimeout? || e.GarbledIn?)
    ensures Truthful(Step(s, e))
  {
    match e
    case BeaconIn(m, cap) =>
      BeaconNotes(s.receiver, m, cap);
      ReceiverHears(s, base, HandleBeacon(s.receiver, m, cap), m);
    case UpdateTimeout(cap) =>
      TimeoutNotes(s.receiver, cap, 0, 0);
      ReceiverKeeps(s, base, OnUpdateTimeout(s.receiver, cap), None);
    case GarbledIn(to, error, cap) =>
      TimeoutNotes(s.receiver, cap, to, error);
      ReceiverKeeps(s, base, RefuseGarbled(s.receiver, to, error, cap), None);
  }

  lemma SenderEventKeeps(s: System, base: u32, e: Event)
    requires Kept(s, base) && Enabled(s, e) && (e.Announce? || e.RequestIn? || e.AckTimeout?)
    ensures Truthful(Step(s, e))
  {
    match e
    case Announce(cap) =>
      SenderTruth(s.sender, cap);
      SenderKeeps(s, base, BuildBeacon(s.sender, cap));
    case RequestIn(m, cap) =>
      RequestTruth(s.sender, m, cap);
      SenderKeeps(s, base, HandleRequest(s.sender, m, cap));
    case AckTimeout(cap) =>
      SenderTruth(s.sender, cap);
      SenderKeeps(s, base, OnAckTimeout(s.sender, cap));
  }

  lemma TruthStep(s: System, base: u32, e: Event)
    requires Kept(s, base)
    ensures Truthful(Step(s, e))
  {
    if Enabled(s, e) {
      match e
      case Give(target, u) => GiveKeeps(s, base, target, u);
      case AnswerIn(m) => AnswerKeeps(s, base, m);
      case BatchIn(m, cap, outcome) => BatchKeeps(s, base, m, cap, outcome);
      case BeaconIn(_, _) => ReceiverEventKeeps(s, base, e);
      case UpdateTimeout(_) => ReceiverEventKeeps(s, base, e);
      case GarbledIn(_, _, _) => ReceiverEventKeeps(s, base, e);
      case _ => SenderEventKeeps(s, base, e);
    }
  }

  lemma KeptAlways(s: System, es: seq<Event>)
    requires Fresh(s) && !s.receiver.waiting
    ensures Kept(Run(Step, s, es), s.receiver.version)
  {
    var base := s.receiver.version;
    var kept := s => Kept(s, base);
    var any := (s: System, e: Event) => true;
    forall s, e | Kept(s, base) ensures Kept(Step(s, e), base) {
      ChainStep(s, base, e);
      TruthStep(s, base, e);
    }
    AlwaysTrue(Step, any, s, es);
    RunPreserves(Step, kept, any, s, es);
  }

  /**
   Duplicate tolerance: in every reachable state the batch applied last, when
   it arrives again, is not handed to the engine and is acknowledged again.
   */
  lemma DuplicateAcknowledged(s: System, es: seq<Event>, m: Message, cap: nat, works: bool)
    requires Fresh(s) && !s.receiver.waiting
    requires var t := Run(Step, s, es);
             t.done != [] && m in t.net && m.content == Batch(t.done[|t.done| - 1]) && m.header.receiver == t.receiver.id
    requires cap >= 18
    ensures LegalMessage(m)
    ensures var r, e := Run(Step, s, es).receiver, HandleBatch(Run(Step, s, es).receiver, m, cap, works);
            && !e.tried && e.state == r.(seqNo := Inc16(r.seqNo))
            && e.out.Some? && e.out.value.content == Done(m.content.u.id, m.content.u.to)
  {
    KeptAlways(s, es);
    KeptAcknowledges(Run(Step, s, es), s.receiver.version, m, cap, works);
  }

  lemma KeptAcknowledges(t: System, base: u32, m: Message, cap: nat, works: bool)
    requires Kept(t, base) && t.done != [] && m in t.net && m.content == Batch(t.done[|t.done| - 1])
    requires m.header.receiver == t.receiver.id && cap >= 18
    ensures var r, e := t.receiver, HandleBatch(t.receiver, m, cap, works);
            && LegalMessage(m) && !e.tried && e.state == r.(seqNo := Inc16(r.seqNo))
            && e.out.Some? && e.out.value.content == Done(m.content.u.id, m.content.u.to)
  {
    var u := m.content.u;
    assert MessageOk(t, m) && MessageTrue(t, m);
    assert u in t.given;
    AcceptsExactly(u.removes, u.adds);
    assert Repeats(t.receiver, m.header, u);
    AcknowledgedAgain(t.receiver, m, cap, works);
  }

  /** An applied batch that is not the last one is refused when it arrives again, and not handed to the engine. */
  lemma OlderRefused(s: System, es: seq<Event>, m: Message, cap: nat, works: bool, k: nat)
    requires Fresh(s) && !s.receiver.waiting && LegalMessage(m)
    requires k + 1 < |Run(Step, s, es).done| && m.content == Batch(Run(Step, s, es).done[k])
    ensures var e := HandleBatch(Run(Step, s, es).receiver, m, cap, works);
            !e.tried && (e.out.Some? ==> e.out.value.content.Refused?)
  {
    KeptAlways(s, es);
    KeptRefuses(Run(Step, s, es), s.receiver.version, m, cap, works, k);
  }

  lemma KeptRefuses(t: System, base: u32, m: Message, cap: nat, works: bool, k: nat)
    requires Kept(t, base) && LegalMessage(m) && k + 1 < |t.done| && m.content == Batch(t.done[k])
    ensures var e := HandleBatch(t.receiver, m, cap, works);
            !e.tried && (e.out.Some? ==> e.out.value.content.Refused?)
  {
    OlderIsStale(t, base, k);
    StaleRefused(t.receiver, m, cap, works);
  }

  /** An older applied batch starts below the receiver's version and does not carry the id remembered. */
  lemma OlderIsStale(t: System, base: u32, k: nat)
    requires Kept(t, base) && k + 1 < |t.done|
    ensures t.done[k].from < t.receiver.version && t.done[k].id != t.receiver.last.id
  {
    var n := |t.done| - 1;
    OlderStarts(base, t.done, k);
    assert t.done[k] in t.done && t.done[n] in t.done;
    DistinctIds(t.given, t.done[k], t.done[n]);
  }

  lemma OlderStarts(base: u32, done: seq<Update>, k: nat)
    requires Linked(base, done) && k + 1 < |done|
    ensures done[k].from < VersionAfter(base, done) && done[k] != done[|done| - 1]
  {
    ChainGrows(base, done, k, |done| - 1);
    assert done[k].to > done[k].from;
  }

  lemma DistinctIds(given: set<Update>, u: Update, v: Update)
    requires IdsUnique(given) && u in given && v in given && u != v
    ensures u.id != v.id
  {}

  lemma StaleRefused(r: Receiver, m: Message, cap: nat, works: bool)
    requires LegalMessage(m) && m.content.Batch? && m.content.u.id != r.last.id && m.content.u.from < r.version
    ensures var e := HandleBatch(r, m, cap, works); !e.tried && (e.out.Some? ==> e.out.value.content.Refused?)
  {
    if cap >= 18 {
      StaleInvalid(r, m);
      BatchReaction(r, m, cap, works);
    }
  }

  lemma StaleInvalid(r: Receiver, m: Message)
    requires m.content.Batch? && m.content.u.id != r.last.id && m.content.u.from < r.version
    ensures Validate(r, m) != ERR_NONE
  {}

  lemma AcknowledgedAgain(r: Receiver, m: Message, cap: nat, works: bool)
    requires m.content.Batch? && LegalMessage(m) && cap >= 18 && m.header.receiver == r.id && r.version == m.content.u.to
    requires r.expectedSender == 0 || r.expectedSender == m.header.sender
    requires NumbersError(m.content.u.removes, m.content.u.adds) == ERR_NONE
    requires r.last.id == m.content.u.id && Repeats(r, m.header, m.content.u)
    ensures var e := HandleBatch(r, m, cap, works);
            && !e.tried && e.state == r.(seqNo := Inc16(r.seqNo))
            && e.out.Some? && e.out.value.content == Done(m.content.u.id, m.content.u.to)
  {}

  // ---------- A beacon of another make ----------

  const SMALL := Update(1, 0, 3, [], [])

  lemma ParityOfByte(v: byte, b3: bool, b2: bool, b1: bool, b0: bool, w: nat)
    requires w == 8 && v == (if b3 then 8 else 0) + (if b2 then 4 else 0) + (if b1 then 2 else 0) + (if b0 then 1 else 0)
    ensures Parity(BitsOf([v])) == ((b3 != b2) != (b1 != b0))
  {
    var zero, lo := [false, false, false, false], [b3, b2, b1, b0];
    ValueAppend4([], false, false, false, false);
    ValueAppend4([], b3, b2, b1, b0);
    BitsOfNumber(zero, lo, v, w);
    BitsOfByte(v);
    ParityAppend(zero, lo);
    ParityOf4(false, false, false, false);
    ParityOf4(b3, b2, b1, b0);
  }

  lemma ParityOfWord(v: byte, b3: bool, b2: bool, b1: bool, b0: bool)
    requires v == (if b3 then 8 else 0) + (if b2 then 4 else 0) + (if b1 then 2 else 0) + (if b0 then 1 else 0)
    ensures Parity(BitsOf([v, 0, 0, 0])) == ((b3 != b2) != (b1 != b0))
  {
    assert [v, 0, 0, 0] == [v] + ([0] + ([0] + [0]));
    ParityOfByte(v, b3, b2, b1, b0, 8);
    ParityOfByte(0, false, false, false, false, 8);
    ParityOfJoin([0], [0]);
    ParityOfJoin([0], [0] + [0]);
    ParityOfJoin([v], [0] + ([0] + [0]));
  }

  lemma ParityOfJoin(a: seq<byte>, b: seq<byte>)
    ensures Parity(BitsOf(a + b)) == (Parity(BitsOf(a)) != Parity(BitsOf(b)))
  {
    BitsOfAppend(a, b);
    ParityAppend(BitsOf(a), BitsOf(b));
  }

  /** Its payload has three one bits, so its checksum is not 0. */
  lemma SmallChecksum(w: nat)
    requires w == 16
    ensures CrcOf(UpdatePayload(SMALL)) != 0
  {
    var id, from, to, counts := [1, 0, 0, 0], [0, 0, 0, 0], [3, 0, 0, 0], [0, 0, 0, 0];
    assert UpdatePayload(SMALL) == id + (from + (to + counts));
    ParityOfWord(1, false, false, false, true);
    ParityOfWord(0, false, false, false, false);
    ParityOfWord(3, false, false, true, true);
    ParityOfJoin(to, counts);
    ParityOfJoin(from, to + counts);
    ParityOfJoin(id, from + (to + counts));
    CrcParity(UpdatePayload(SMALL));
    LowOfZero(w);
    ParityOfZeros(w);
  }

  lemma {:induction false} ParityOfZeros(n: nat)
    ensures !Parity(Zeros(n))
  {
    if n > 0 {
      ParityOfZeros(n - 1);
      assert Zeros(n)[..n - 1] == Zeros(n - 1);
    }
  }

  /** A receiver just initialised, a beacon for SMALL that announces checksum 0, and its batch. */
  function Beacon0(): Message {
    Message(Header(10, 0, 1), Offer(1, 0, 3, 0, 0, 16, 0))
  }

  function Batch0(): Message {
    Message(Header(10, 20, 2), Batch(SMALL))
  }

  function Asking(): Receiver {
    HandleBeacon(ReceiverInit(20, 10, 3, 0, 0), Beacon0(), 18).state
  }

  /**
   Duplicate tolerance needs the checksum to be announced: after a beacon of
   another make that announces 0, which switches the comparison off, the batch
   is applied, and refused when it arrives again.
   */
  lemma UnannouncedChecksum()
    ensures var first := HandleBatch(Asking(), Batch0(), 18, true);
            && first.tried && first.out.Some? && first.out.value.content == Done(1, 3)
            && var again := HandleBatch(first.state, Batch0(), 18, true);
               !again.tried && again.out.Some? && again.out.value.content == Refused(1, ERR_UPDATE_ID_UNKNOWN, 0)
  {
    SmallChecksum(16);
    AcceptsExactly([], []);
    SmallApplied(Asking(), Batch0());
    var t := HandleBatch(Asking(), Batch0(), 18, true).state;
    assert !Repeats(t, Batch0().header, SMALL);
    LegacyExchange.SecondTime(t, Batch0(), 18, true);
  }

  lemma SmallApplied(r: Receiver, m: Message)
    requires r == Asking() && m == Batch0() && NumbersError([], []) == ERR_NONE
    ensures LegalMessage(m)
    ensures var e := HandleBatch(r, m, 18, true);
            e.tried && e.out.Some? && e.out.value.content == Done(1, 3) && e.state == Advanced(r, m.header, SMALL)
    ensures r.pending == Pending(1, 0, 3, 0, 0, 16, 0) && r.id == 20 && r.expectedSender == 10
  {}
}
