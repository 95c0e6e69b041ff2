/**
 One batch sender and one receiver that name each other: to whom their messages
 go, and which messages a batch in flight or applied has left in the link.
 */
module LegacyPair {
  import opened Words
  import opened Framing
  import opened Runs
  import opened UpdateFrames
  import opened LegacyModel
  import opened LegacyChain
  import opened LegacyRepeats
  import opened LegacyExchange

  /** The link holds such a message. */
  ghost predicate Carries(net: set<Message>, from: u16, to: u16, c: Content) {
    exists m :: m in net && m.header.sender == from && m.header.receiver == to && m.content == c
  }

  /** Offers and batches come from the sender, requests from the receiver, and batches go to it. */
  predicate Addresses(id: u16, rid: u16, m: Message) {
    && (m.content.Offer? ==> m.header.sender == id)
    && (m.content.Wanted? ==> m.header.sender == rid)
    && (m.content.Batch? ==> m.header.sender == id && m.header.receiver == rid)
  }

  /** A batch awaited was sent to the receiver. */
  ghost predicate BatchOut(a: Sender, rid: u16, net: set<Message>) {
    a.phase == WaitAck ==> a.target == rid && Carries(net, a.id, rid, Batch(a.update))
  }

  /** What the receiver waits for it has asked for. */
  ghost predicate Asked(r: Receiver, id: u16, net: set<Message>) {
    r.waiting ==> r.pending.id != 0 && Carries(net, r.id, id, Wanted(r.pending.id, r.version))
  }

  /** Of an update applied the link holds the request and the batch. */
  ghost predicate LeftBehind(id: u16, rid: u16, net: set<Message>, u: Update) {
    Carries(net, id, rid, Batch(u)) && Carries(net, rid, id, Wanted(u.id, u.from))
  }

  ghost predicate Private(s: System) {
    && Paired(s.sender, s.receiver)
    && (forall m :: m in s.net ==> Addresses(s.sender.id, s.receiver.id, m))
    && BatchOut(s.sender, s.receiver.id, s.net)
    && Asked(s.receiver, s.sender.id, s.net)
    && (s.done != [] ==> s.receiver.pending.id != 0)
    && (forall u :: u in s.done ==> LeftBehind(s.sender.id, s.receiver.id, s.net, u))
  }

  lemma StillCarried(net: set<Message>, out: Option<Message>, from: u16, to: u16, c: Content)
    requires Carries(net, from, to, c)
    ensures Carries(Put(net, out), from, to, c)
  {
    var m :| m in net && m.header.sender == from && m.header.receiver == to && m.content == c;
    assert m in Put(net, out);
  }

  lemma StillLeftBehind(s: System, out: Option<Message>)
    requires forall u :: u in s.done ==> LeftBehind(s.sender.id, s.receiver.id, s.net, u)
    ensures forall u :: u in s.done ==> LeftBehind(s.sender.id, s.receiver.id, Put(s.net, out), u)
  {
    forall u | u in s.done ensures LeftBehind(s.sender.id, s.receiver.id, Put(s.net, out), u) {
      StillCarried(s.net, out, s.sender.id, s.receiver.id, Batch(u));
      StillCarried(s.net, out, s.receiver.id, s.sender.id, Wanted(u.id, u.from));
    }
  }

  // ---------- Sender steps ----------

  /** The sender speaks for itself, sends batches only to `rid`, and awaits only what it has sent. */
  ghost predicate SpeaksTo(a: Sender, rid: u16, r: Sending) {
    && r.state.id == a.id
    && (r.out.Some? ==> Addresses(a.id, rid, r.out.value) && !r.out.value.content.Wanted?)
    && (r.state.phase == WaitAck ==>
          && r.state.target == rid && r.state.update == a.update
          && (a.phase == WaitAck || (r.out.Some? && r.out.value.content == Batch(a.update))))
  }

  lemma SenderPrivate(s: System, r: Sending)
    requires Private(s) && SpeaksTo(s.sender, s.receiver.id, r)
    ensures Private(s.(sender := r.state, net := Put(s.net, r.out)))
  {
    var t := s.(sender := r.state, net := Put(s.net, r.out));
    StillLeftBehind(s, r.out);
    if s.receiver.waiting {
      StillCarried(s.net, r.out, s.receiver.id, s.sender.id, Wanted(s.receiver.pending.id, s.receiver.version));
    }
    if t.sender.phase == WaitAck && s.sender.phase == WaitAck {
      StillCarried(s.net, r.out, s.sender.id, s.receiver.id, Batch(s.sender.update));
    }
  }

  lemma TimeoutsSpeak(a: Sender, rid: u16, cap: nat)
    requires a.phase == WaitAck ==> a.target == rid
    ensures SpeaksTo(a, rid, BuildBeacon(a, cap)) && SpeaksTo(a, rid, OnAckTimeout(a, cap))
  {}

  lemma RequestSpeaks(a: Sender, rid: u16, m: Message, cap: nat)
    requires LegalMessage(m) && (m.content.Wanted? ==> m.header.sender == rid) && (a.phase == WaitAck ==> a.target == rid)
    ensures SpeaksTo(a, rid, HandleRequest(a, m, cap))
  {}

  lemma GiveSpeaks(a: Sender, rid: u16, target: u16, u: Update)
    requires a.phase == WaitAck ==> a.target == rid
    ensures SpeaksTo(a, rid, Sending(SetUpdate(a, target, u).0, None))
  {}

  lemma AnswerSpeaks(a: Sender, rid: u16, m: Message)
    requires a.phase == WaitAck ==> a.target == rid
    ensures SpeaksTo(a, rid, Sending(HandleAnswer(a, m).0, None))
  {}

  // ---------- Receiver steps ----------

  /** The receiver's requests and answers are its own, and it waits only for what it has asked sender `id` for. */
  ghost predicate AsksOnly(a: Receiver, id: u16, r: Reaction) {
    && r.state.id == a.id && r.state.expectedSender == a.expectedSender
    && (r.out.Some? ==> Addresses(id, a.id, r.out.value) && !r.out.value.content.Batch?)
    && (a.pending.id != 0 ==> r.state.pending.id != 0)
    && (r.state.waiting ==>
          || (a.waiting && r.state.pending == a.pending && r.state.version == a.version)
          || (r.out.Some? && r.out.value.header == Header(a.id, id, r.out.value.header.seqNo)
              && r.out.value.content == Wanted(r.state.pending.id, r.state.version) && r.state.pending.id != 0))
  }

  lemma ReceiverPrivate(s: System, r: Reaction)
    requires Private(s) && AsksOnly(s.receiver, s.sender.id, r)
    ensures Private(s.(receiver := r.state, net := Put(s.net, r.out)))
  {
    var t := s.(receiver := r.state, net := Put(s.net, r.out));
    StillLeftBehind(s, r.out);
    if s.sender.phase == WaitAck {
      StillCarried(s.net, r.out, s.sender.id, s.receiver.id, Batch(s.sender.update));
    }
    if r.state.waiting && s.receiver.waiting {
      StillCarried(s.net, r.out, s.receiver.id, s.sender.id, Wanted(s.receiver.pending.id, s.receiver.version));
    }
  }

  lemma BeaconAsksOnly(a: Receiver, id: u16, m: Message, cap: nat)
    requires m.content.Offer? ==> m.header.sender == id
    ensures AsksOnly(a, id, HandleBeacon(a, m, cap))
  {}

  lemma TimeoutAsksOnly(a: Receiver, id: u16, cap: nat, to: u16, error: u16)
    ensures AsksOnly(a, id, OnUpdateTimeout(a, cap)) && AsksOnly(a, id, RefuseGarbled(a, to, error, cap))
  {}

  lemma BatchAsksOnly(a: Receiver, id: u16, m: Message, cap: nat, works: bool)
    requires m.content.Batch? && LegalMessage(m)
    ensures AsksOnly(a, id, HandleBatch(a, m, cap, works))
  {
    if cap >= 18 {
      BatchReaction(a, m, cap, works);
      ReplyIsAnswer(a, m, works);
      AnswersAskOnly(a, id, m, HandleBatch(a, m, cap, works));
    }
  }

  lemma ReplyIsAnswer(a: Receiver, m: Message, works: bool)
    requires m.content.Batch?
    ensures ReplyTo(a, m, works).Done? || ReplyTo(a, m, works).Refused?
  {}

  lemma AnswersAskOnly(a: Receiver, id: u16, m: Message, r: Reaction)
    requires m.content.Batch? && (r.out.Some? ==> r.out.value.content.Done? || r.out.value.content.Refused?)
    requires r.state == a || r.state == a.(seqNo := r.state.seqNo) || r.state == Advanced(a, m.header, m.content.u)
    ensures AsksOnly(a, id, r)
  {}

  /** A completed batch was asked for and sent. */
  lemma CompletedLeftBehind(s: System, m: Message, cap: nat)
    requires Private(s) && m in s.net && LegalMessage(m) && m.content.Batch? && HandleBatch(s.receiver, m, cap, true).tried
    ensures LeftBehind(s.sender.id, s.receiver.id, s.net, m.content.u) && s.receiver.pending.id != 0
  {
    WasWaiting(s.receiver, m, cap);
    NewBatch(s.receiver, m, cap);
  }

  lemma BatchPrivate(s: System, m: Message, cap: nat, outcome: Outcome)
    requires Private(s) && Enabled(s, BatchIn(m, cap, outcome))
    ensures Private(Step(s, BatchIn(m, cap, outcome)))
  {
    var r := HandleBatch(s.receiver, m, cap, outcome.Completes?);
    BatchAsksOnly(s.receiver, s.sender.id, m, cap, outcome.Completes?);
    ReceiverPrivate(s, r);
    var t := s.(receiver := r.state, net := Put(s.net, r.out));
    if r.tried && outcome.Completes? {
      CompletedLeftBehind(s, m, cap);
      StillLeftBehind(s.(done := [m.content.u]), r.out);
      DonePrivate(t, m.content.u);
      SamePrivate(t.(done := s.done + [m.content.u]), Step(s, BatchIn(m, cap, outcome)));
    } else {
      SamePrivate(t, Step(s, BatchIn(m, cap, outcome)));
    }
  }

  lemma DonePrivate(s: System, u: Update)
    requires Private(s) && LeftBehind(s.sender.id, s.receiver.id, s.net, u) && s.receiver.pending.id != 0
    ensures Private(s.(done := s.done + [u]))
  {}

  lemma SamePrivate(s: System, t: System)
    requires Private(s) && t == s.(numbers := t.numbers, partial := t.partial, given := t.given, confirmed := t.confirmed)
    ensures Private(t)
  {}

  // ---------- All steps ----------

  lemma SenderEventPrivate(s: System, e: Event)
    requires Private(s) && Enabled(s, e) && (e.Give? || e.Announce? || e.RequestIn? || e.AnswerIn? || e.AckTimeout?)
    ensures Private(Step(s, e))
  {
    match e
    case Give(target, u) =>
      GiveSpeaks(s.sender, s.receiver.id, target, u);
      SenderPrivate(s, Sending(SetUpdate(s.sender, target, u).0, None));
      SamePrivate(s.(sender := SetUpdate(s.sender, target, u).0), Step(s, e));
    case Announce(cap) =>
      TimeoutsSpeak(s.sender, s.receiver.id, cap);
      SenderPrivate(s, BuildBeacon(s.sender, cap));
    case RequestIn(m, cap) =>
      RequestSpeaks(s.sender, s.receiver.id, m, cap);
      SenderPrivate(s, HandleRequest(s.sender, m, cap));
    case AnswerIn(m) =>
      AnswerSpeaks(s.sender, s.receiver.id, m);
      SenderPrivate(s, Sending(HandleAnswer(s.sender, m).0, None));
      SamePrivate(s.(sender := HandleAnswer(s.sender, m).0), Step(s, e));
    case AckTimeout(cap) =>
      TimeoutsSpeak(s.sender, s.receiver.id, cap);
      SenderPrivate(s, OnAckTimeout(s.sender, cap));
  }

  lemma PrivateStep(s: System, e: Event)
    requires Private(s)
    ensures Private(Step(s, e))
  {
    if Enabled(s, e) {
      match e
      case BeaconIn(m, cap) =>
        BeaconAsksOnly(s.receiver, s.sender.id, m, cap);
        ReceiverPrivate(s, HandleBeacon(s.receiver, m, cap));
      case UpdateTimeout(cap) =>
        TimeoutAsksOnly(s.receiver, s.sender.id, cap, 0, 0);
        ReceiverPrivate(s, OnUpdateTimeout(s.receiver, cap));
      case GarbledIn(to, error, cap) =>
        TimeoutAsksOnly(s.receiver, s.sender.id, cap, to, error);
        ReceiverPrivate(s, RefuseGarbled(s.receiver, to, error, cap));
      case BatchIn(m, cap, outcome) => BatchPrivate(s, m, cap, outcome);
      case _ => SenderEventPrivate(s, e);
    }
  }

  /** A reachable state of two endpoints that name each other. */
  ghost predicate InStep(s: System, base: u32) {
    Kept(s, base) && Private(s)
  }

  lemma InStepStep(s: System, base: u32, e: Event)
    requires InStep(s, base)
    ensures InStep(Step(s, e), base)
  {
    ChainStep(s, base, e);
    TruthStep(s, base, e);
    PrivateStep(s, e);
  }

  lemma InStepAlways(s: System, es: seq<Event>)
    requires Fresh(s) && !s.receiver.waiting && Paired(s.sender, s.receiver)
    ensures InStep(Run(Step, s, es), s.receiver.version)
  {
    var base := s.receiver.version;
    var inv := s => InStep(s, base);
    var any := (s: System, e: Event) => true;
    forall s, e | InStep(s, base) ensures InStep(Step(s, e), base) {
      InStepStep(s, base, e);
    }
    AlwaysTrue(Step, any, s, es);
    RunPreserves(Step, inv, any, s, es);
  }
}
