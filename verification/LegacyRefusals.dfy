/**
 The exchange of an update the receiver has applied: exactly when some later run
 reports it as refused, and exactly when a request ends it, while its ACK is
 still awaited.
 */
module LegacyRefusals {
  import opened Words
  import opened Framing
  import opened Runs
  import opened UpdateFrames
  import opened Batches
  import opened LegacyModel
  import opened LegacyChain
  import opened LegacyRepeats
  import opened LegacyPair
  import opened LegacyLeak
  import opened LegacyStale
  import LegacyExchange

  /** The sender awaits the ACK of update `u`, which the receiver has applied. */
  predicate AwaitsApplied(s: System, u: Update) {
    s.sender.phase == WaitAck && s.sender.update == u && u in s.done
  }

  /** No frame is damaged. */
  predicate Intact(s: System, e: Event) {
    !e.GarbledIn?
  }

  ghost predicate CanReport(s: System, u: Update) {
    AwaitsApplied(s, u) && exists m :: m in s.net && ReportsRefusal(s.sender, m)
  }

  ghost predicate CanEnd(s: System, u: Update) {
    AwaitsApplied(s, u) && exists m, cap :: m in s.net && EndsExchange(s.sender, m, cap)
  }

  /** In some later run a NACK is reported while `u` is awaited. */
  ghost predicate RefusedSomeday(s: System, u: Update, ok: (System, Event) -> bool) {
    exists t :: Reaches(Step, ok, s, t) && CanReport(t, u)
  }

  /** In some later run a request ends the exchange while `u` is awaited. */
  ghost predicate EndedSomeday(s: System, u: Update) {
    exists t :: Reaches(Step, Anything, s, t) && CanEnd(t, u)
  }

  // ---------- Where the sender is once it has left `u` ----------

  lemma LeftStep(s: System, u: Update, e: Event)
    requires Left(s, u)
    ensures Left(Step(s, e), u)
  {}

  /** The messages a waiting sender sends, and where they leave it. */
  predicate StaysOrLeaves(a: Sender, r: Sending) {
    && r.state.update == a.update
    && (r.state.phase == WaitAck || r.state.phase == Idle)
    && (r.out.Some? && r.out.value.content.Batch? ==> r.out.value.content.u == a.update)
    && (r.out.Some? && r.out.value.content.Offer? ==> r.out.value.content.to == a.update.to)
    && (r.out.Some? && r.state.phase == WaitAck ==> r.out.value.content.Batch? || r.out.value.content.Offer?)
  }

  lemma TimeoutLeaves(a: Sender, cap: nat)
    requires a.phase == WaitAck
    ensures StaysOrLeaves(a, BuildBeacon(a, cap)) && StaysOrLeaves(a, OnAckTimeout(a, cap))
  {}

  lemma RequestLeaves(a: Sender, m: Message, cap: nat)
    requires a.phase == WaitAck && LegalMessage(m)
    ensures StaysOrLeaves(a, HandleRequest(a, m, cap))
  {}

  lemma AnswerLeaves(a: Sender, m: Message)
    requires a.phase == WaitAck
    ensures StaysOrLeaves(a, Sending(HandleAnswer(a, m).0, None))
  {}

  // ---------- Reported as refused ----------

  /** A NACK for the sender, or a batch other than `u`'s. */
  predicate Misleads(id: u16, u: Update, m: Message) {
    (m.content.Refused? && m.header.receiver == id) || (m.content.Batch? && m.content != Batch(u))
  }

  ghost predicate Misled(s: System, u: Update) {
    exists m :: m in s.net && Misleads(s.sender.id, u, m)
  }

  ghost predicate Unrefused(s: System, base: u32, u: Update) {
    InStep(s, base) && (Left(s, u) || (AwaitsApplied(s, u) && !Misled(s, u)))
  }

  /** Without another batch under way `u` is the only one applied. */
  lemma OnlyApplied(s: System, base: u32, u: Update)
    requires InStep(s, base) && u in s.done && !Misled(s, u)
    ensures s.done[|s.done| - 1] == u
  {
    var v := s.done[|s.done| - 1];
    assert LeftBehind(s.sender.id, s.receiver.id, s.net, v);
    var m :| m in s.net && m.header.sender == s.sender.id && m.header.receiver == s.receiver.id && m.content == Batch(v);
    assert !Misleads(s.sender.id, u, m);
  }

  /** A step of either side that adds nothing misleading. */
  lemma StaysUnmisled(s: System, t: System, u: Update, out: Option<Message>)
    requires AwaitsApplied(s, u) && !Misled(s, u) && t.net == Put(s.net, out) && t.sender.id == s.sender.id
    requires t.sender.phase == WaitAck && t.sender.update == u && u in t.done
    requires out.Some? ==> !Misleads(s.sender.id, u, out.value)
    ensures AwaitsApplied(t, u) && !Misled(t, u)
  {}

  lemma SenderUnrefused(s: System, t: System, base: u32, u: Update, r: Sending)
    requires InStep(s, base) && AwaitsApplied(s, u) && !Misled(s, u) && InStep(t, base)
    requires StaysOrLeaves(s.sender, r) && r.state.id == s.sender.id
    requires t.sender == r.state && t.net == Put(s.net, r.out) && t.done == s.done && t.given == s.given
    ensures Unrefused(t, base, u)
  {
    if r.state.phase == WaitAck {
      StaysUnmisled(s, t, u, r.out);
    }
  }

  lemma ReceiverUnrefused(s: System, t: System, base: u32, u: Update, out: Option<Message>)
    requires InStep(s, base) && AwaitsApplied(s, u) && !Misled(s, u) && InStep(t, base)
    requires t.sender == s.sender && t.net == Put(s.net, out) && u in t.done
    requires out.Some? ==> out.value.content.Wanted? || out.value.content.Done?
    ensures Unrefused(t, base, u)
  {
    StaysUnmisled(s, t, u, out);
  }

  /** What the receiver says to anything but a batch or a damaged frame. */
  lemma OnlyAsks(r: Receiver, m: Message, cap: nat)
    ensures var b := HandleBeacon(r, m, cap).out; b.Some? ==> b.value.content.Wanted?
  {}

  lemma OnlyAsksAgain(r: Receiver, cap: nat)
    ensures var b := OnUpdateTimeout(r, cap).out; b.Some? ==> b.value.content.Wanted?
  {}

  /** The batch of `u` arriving again is acknowledged again. */
  lemma AgainAcknowledged(s: System, base: u32, u: Update, m: Message, cap: nat, works: bool)
    requires InStep(s, base) && AwaitsApplied(s, u) && !Misled(s, u) && m in s.net && LegalMessage(m) && m.content.Batch?
    ensures var e := HandleBatch(s.receiver, m, cap, works); !e.tried && (e.out.Some? ==> e.out.value.content.Done?)
  {
    OnlyApplied(s, base, u);
    assert !Misleads(s.sender.id, u, m);
    if cap >= 18 {
      KeptAcknowledges(s, base, m, cap, works);
    }
  }

  lemma BatchUnrefused(s: System, base: u32, u: Update, m: Message, cap: nat, outcome: Outcome)
    requires InStep(s, base) && AwaitsApplied(s, u) && !Misled(s, u) && Enabled(s, BatchIn(m, cap, outcome))
    ensures Unrefused(Step(s, BatchIn(m, cap, outcome)), base, u)
  {
    var r := HandleBatch(s.receiver, m, cap, outcome.Completes?);
    InStepStep(s, base, BatchIn(m, cap, outcome));
    AgainAcknowledged(s, base, u, m, cap, outcome.Completes?);
    ReceiverUnrefused(s, Step(s, BatchIn(m, cap, outcome)), base, u, r.out);
  }

  lemma UnrefusedStep(s: System, base: u32, u: Update, e: Event)
    requires Unrefused(s, base, u) && Intact(s, e)
    ensures Unrefused(Step(s, e), base, u)
  {
    InStepStep(s, base, e);
    if Left(s, u) {
      LeftStep(s, u, e);
    } else if Enabled(s, e) {
      AwaitingUnrefused(s, base, u, e);
    }
  }

  lemma AwaitingUnrefused(s: System, base: u32, u: Update, e: Event)
    requires InStep(s, base) && AwaitsApplied(s, u) && !Misled(s, u) && Enabled(s, e) && Intact(s, e)
    ensures Unrefused(Step(s, e), base, u)
  {
    InStepStep(s, base, e);
    match e
    case Give(_, _) =>
    case BeaconIn(m, cap) =>
      OnlyAsks(s.receiver, m, cap);
      ReceiverUnrefused(s, Step(s, e), base, u, HandleBeacon(s.receiver, m, cap).out);
    case UpdateTimeout(cap) =>
      OnlyAsksAgain(s.receiver, cap);
      ReceiverUnrefused(s, Step(s, e), base, u, OnUpdateTimeout(s.receiver, cap).out);
    case BatchIn(m, cap, outcome) => BatchUnrefused(s, base, u, m, cap, outcome);
    case _ => SenderEventUnrefused(s, base, u, e);
  }

  lemma SenderEventUnrefused(s: System, base: u32, u: Update, e: Event)
    requires InStep(s, base) && AwaitsApplied(s, u) && !Misled(s, u) && Enabled(s, e) && InStep(Step(s, e), base)
    requires e.Announce? || e.AckTimeout? || e.RequestIn? || e.AnswerIn?
    ensures Unrefused(Step(s, e), base, u)
  {
    var r := SenderEvent(s, e);
    SenderUnrefused(s, Step(s, e), base, u, r);
  }

  /** What an event at the waiting sender does to it, as one sending. */
  lemma SenderEvent(s: System, e: Event) returns (r: Sending)
    requires s.sender.phase == WaitAck && Enabled(s, e) && (e.Announce? || e.AckTimeout? || e.RequestIn? || e.AnswerIn?)
    ensures var t := Step(s, e);
            t == s.(sender := r.state, net := Put(s.net, r.out), confirmed := t.confirmed)
    ensures StaysOrLeaves(s.sender, r) && r.state.id == s.sender.id
  {
    match e
    case Announce(cap) =>
      TimeoutLeaves(s.sender, cap);
      r := BuildBeacon(s.sender, cap);
    case AckTimeout(cap) =>
      TimeoutLeaves(s.sender, cap);
      r := OnAckTimeout(s.sender, cap);
    case RequestIn(m, cap) =>
      RequestLeaves(s.sender, m, cap);
      r := HandleRequest(s.sender, m, cap);
    case AnswerIn(m) =>
      AnswerLeaves(s.sender, m);
      r := Sending(HandleAnswer(s.sender, m).0, None);
  }

  lemma UnrefusedAlways(s: System, base: u32, u: Update, t: System)
    requires InStep(s, base) && AwaitsApplied(s, u) && !Misled(s, u) && Reaches(Step, Intact, s, t)
    ensures !CanReport(t, u)
  {
    var es :| Always(Step, Intact, s, es) && Run(Step, s, es) == t;
    var inv := s => Unrefused(s, base, u);
    forall s, e | Unrefused(s, base, u) && Intact(s, e) ensures Unrefused(Step(s, e), base, u) {
      UnrefusedStep(s, base, u, e);
    }
    RunPreserves(Step, inv, Intact, s, es);
    CannotReport(t, base, u);
  }

  lemma CannotReport(t: System, base: u32, u: Update)
    requires Unrefused(t, base, u)
    ensures !CanReport(t, u)
  {
    forall m | m in t.net && t.sender.phase == WaitAck ensures ReportsRefusal(t.sender, m) ==> Misleads(t.sender.id, u, m) {
      RefusalReported(t.sender, m);
    }
  }

  lemma RefusalSent(s: System, t: System, u: Update, a: Message)
    requires AwaitsApplied(s, u) && s.sender.id != 0 && s.sender.id != ANY_RECEIVER
    requires t.sender == s.sender && t.done == s.done && a in t.net && a.content.Refused? && a.header.receiver == s.sender.id
    ensures CanReport(t, u)
  {
    RefusalReported(s.sender, a);
  }

  lemma OtherReply(r: Receiver, m: Message)
    requires LegalMessage(m) && m.content.Batch? && m.content.u.id != r.last.id && r.id != 0 && r.pending.id != 0
    ensures var a := HandleBatch(r, m, 18, false).out;
            a.Some? && a.value.content.Refused? && a.value.header.receiver == m.header.sender
  {
    BatchReaction(r, m, 18, false);
  }

  lemma StoppedBatch(s: System, m: Message)
    requires Enabled(s, BatchIn(m, 18, Stops(0)))
    ensures var t, a := Step(s, BatchIn(m, 18, Stops(0))), HandleBatch(s.receiver, m, 18, false).out;
            t.sender == s.sender && t.done == s.done && t.net == Put(s.net, a)
  {}

  /** Any batch but the one applied last makes the receiver refuse, at the latest when its engine fails. */
  lemma OtherRefused(s: System, base: u32, u: Update, m: Message) returns (t: System)
    requires InStep(s, base) && AwaitsApplied(s, u)
    requires m in s.net && LegalMessage(m) && m.content.Batch? && m.content.u.id != s.receiver.last.id
    ensures t == Step(s, BatchIn(m, 18, Stops(0))) && CanReport(t, u)
  {
    t := Step(s, BatchIn(m, 18, Stops(0)));
    assert Addresses(s.sender.id, s.receiver.id, m);
    OtherReply(s.receiver, m);
    StoppedBatch(s, m);
    RefusalSent(s, t, u, HandleBatch(s.receiver, m, 18, false).out.value);
  }

  lemma MisledIsRefused(s: System, base: u32, u: Update)
    requires InStep(s, base) && AwaitsApplied(s, u) && Misled(s, u)
    ensures RefusedSomeday(s, u, Intact)
  {
    ReachesSelf(Step, Intact, s);
    var m :| m in s.net && Misleads(s.sender.id, u, m);
    if m.content.Refused? {
      RefusalReported(s.sender, m);
      assert CanReport(s, u);
    } else {
      var b := UnrememberedBatch(s, base, u, m);
      var t := OtherRefused(s, base, u, b);
      ReachesNext(Step, Intact, s, s, BatchIn(b, 18, Stops(0)));
    }
  }

  /** If another batch is under way, then one that is not the batch applied last: that one, or the batch of `u` itself. */
  lemma UnrememberedBatch(s: System, base: u32, u: Update, m: Message) returns (b: Message)
    requires InStep(s, base) && AwaitsApplied(s, u) && m in s.net && m.content.Batch? && m.content != Batch(u)
    ensures b in s.net && LegalMessage(b) && b.content.Batch? && b.content.u.id != s.receiver.last.id
  {
    if s.done[|s.done| - 1] == u {
      b := m;
    } else {
      b :| b in s.net && b.header.sender == s.sender.id && b.header.receiver == s.receiver.id && b.content == Batch(u);
    }
    NotRemembered(s, base, b);
  }

  lemma NotRemembered(s: System, base: u32, b: Message)
    requires Kept(s, base) && s.done != [] && b in s.net && b.content.Batch? && b.content.u != s.done[|s.done| - 1]
    ensures LegalMessage(b) && b.content.u.id != s.receiver.last.id
  {
    var v := s.done[|s.done| - 1];
    assert v in s.done && MessageOk(s, b);
    DistinctIds(s.given, b.content.u, v);
  }

  /**
   While the sender awaits the ACK of an applied update, and no frame is
   damaged, some later run has it report a refusal instead if and only if the
   link holds a NACK addressed to it or any batch but this update's.
   */
  lemma RefusedExactly(s: System, base: u32, u: Update)
    requires InStep(s, base) && AwaitsApplied(s, u)
    ensures RefusedSomeday(s, u, Intact) <==> Misled(s, u)
  {
    if Misled(s, u) {
      MisledIsRefused(s, base, u);
    } else {
      forall t | Reaches(Step, Intact, s, t) ensures !CanReport(t, u) {
        UnrefusedAlways(s, base, u, t);
      }
    }
  }

  lemma GarbledReply(r: Receiver, to: u16, error: u16)
    requires r.id != 0 && r.pending.id != 0 && to != 0
    ensures RefuseGarbled(r, to, error, 18).out == Some(Message(Header(r.id, to, r.seqNo), Refused(r.pending.id, error, 0)))
  {}

  lemma GarbledFrame(s: System, to: u16, error: u16)
    ensures var t := Step(s, GarbledIn(to, error, 18));
            t.sender == s.sender && t.done == s.done && t.net == Put(s.net, RefuseGarbled(s.receiver, to, error, 18).out)
  {}

  /** A single damaged batch frame is always enough. */
  lemma DamageRefuses(s: System, base: u32, u: Update)
    requires InStep(s, base) && AwaitsApplied(s, u)
    ensures RefusedSomeday(s, u, Anything)
  {
    var e := GarbledIn(s.sender.id, ERR_CRC_FAIL, 18);
    GarbledReply(s.receiver, s.sender.id, ERR_CRC_FAIL);
    GarbledFrame(s, s.sender.id, ERR_CRC_FAIL);
    RefusalSent(s, Step(s, e), u, RefuseGarbled(s.receiver, s.sender.id, ERR_CRC_FAIL, 18).out.value);
    ReachesSelf(Step, Anything, s);
    ReachesNext(Step, Anything, s, s, e);
  }

  // ---------- Ended by a request ----------

  /** A request to the sender for anything but `u`, or an offer that leads beyond it. */
  predicate Diverts(id: u16, u: Update, m: Message) {
    || (m.content.Wanted? && m.header.receiver == id && m.content != Wanted(u.id, u.from))
    || (m.content.Offer? && m.content.to > u.to)
  }

  ghost predicate Diverted(s: System, u: Update) {
    exists m :: m in s.net && Diverts(s.sender.id, u, m)
  }

  ghost predicate Unended(s: System, base: u32, u: Update) {
    InStep(s, base) && (Left(s, u) || (AwaitsApplied(s, u) && !Diverted(s, u)))
  }

  /** Without another request under way `u` is the only update applied. */
  lemma OnlyAsked(s: System, base: u32, u: Update)
    requires InStep(s, base) && u in s.done && !Diverted(s, u)
    ensures s.done[|s.done| - 1] == u
  {
    var v := s.done[|s.done| - 1];
    assert LeftBehind(s.sender.id, s.receiver.id, s.net, v);
    var c := Wanted(v.id, v.from);
    var m :| m in s.net && m.header.sender == s.receiver.id && m.header.receiver == s.sender.id && m.content == c;
    assert !Diverts(s.sender.id, u, m);
    assert u in s.given && v in s.given;
  }

  lemma LastApplied(s: System, base: u32, u: Update)
    requires Chained(s, base) && s.done != [] && s.done[|s.done| - 1] == u
    ensures s.receiver.version == u.to && u.to > u.from
  {}

  /** And the receiver is not waiting for anything. */
  lemma NothingAwaited(s: System, base: u32, u: Update)
    requires InStep(s, base) && u in s.done && !Diverted(s, u)
    ensures s.receiver.version == u.to && !s.receiver.waiting
  {
    OnlyAsked(s, base, u);
    LastApplied(s, base, u);
    if s.receiver.waiting {
      WaitingDiverts(s, u);
    }
  }

  lemma WaitingDiverts(s: System, u: Update)
    requires Private(s) && s.receiver.waiting && s.receiver.version == u.to > u.from
    ensures Diverted(s, u)
  {
    var c := Wanted(s.receiver.pending.id, s.receiver.version);
    var m :| m in s.net && m.header.sender == s.receiver.id && m.header.receiver == s.sender.id && m.content == c;
    assert Diverts(s.sender.id, u, m);
  }

  lemma StaysUndiverted(s: System, t: System, u: Update, out: Option<Message>)
    requires AwaitsApplied(s, u) && !Diverted(s, u) && t.net == Put(s.net, out) && t.sender.id == s.sender.id
    requires t.sender.phase == WaitAck && t.sender.update == u && u in t.done
    requires out.Some? ==> !Diverts(s.sender.id, u, out.value)
    ensures AwaitsApplied(t, u) && !Diverted(t, u)
  {}

  lemma SenderUnended(s: System, t: System, base: u32, u: Update, r: Sending)
    requires InStep(s, base) && AwaitsApplied(s, u) && !Diverted(s, u) && InStep(t, base)
    requires StaysOrLeaves(s.sender, r) && r.state.id == s.sender.id
    requires t.sender == r.state && t.net == Put(s.net, r.out) && t.done == s.done && t.given == s.given
    ensures Unended(t, base, u)
  {
    if r.state.phase == WaitAck {
      StaysUndiverted(s, t, u, r.out);
    }
  }

  lemma ReceiverUnended(s: System, t: System, base: u32, u: Update, out: Option<Message>)
    requires InStep(s, base) && AwaitsApplied(s, u) && !Diverted(s, u) && InStep(t, base)
    requires t.sender == s.sender && t.net == Put(s.net, out) && u in t.done
    requires out.Some? ==> out.value.content.Refused? || out.value.content.Done?
    ensures Unended(t, base, u)
  {
    StaysUndiverted(s, t, u, out);
  }

  lemma Unasked(r: Receiver, m: Message, cap: nat)
    requires !r.waiting && (m.content.Offer? ==> m.content.to <= r.version)
    ensures HandleBeacon(r, m, cap).out == None && OnUpdateTimeout(r, cap).out == None
  {}

  lemma BatchAnswered(r: Receiver, m: Message, cap: nat, works: bool)
    requires m.content.Batch? && LegalMessage(m)
    ensures var a := HandleBatch(r, m, cap, works).out; a.Some? ==> a.value.content.Refused? || a.value.content.Done?
  {
    if cap >= 18 {
      BatchReaction(r, m, cap, works);
      ReplyIsAnswer(r, m, works);
    }
  }

  lemma BatchEvent(s: System, m: Message, cap: nat, outcome: Outcome) returns (out: Option<Message>)
    requires Enabled(s, BatchIn(m, cap, outcome))
    ensures out.Some? ==> out.value.content.Refused? || out.value.content.Done?
    ensures var t := Step(s, BatchIn(m, cap, outcome));
            t.sender == s.sender && t.net == Put(s.net, out) && forall u :: u in s.done ==> u in t.done
  {
    BatchAnswered(s.receiver, m, cap, outcome.Completes?);
    out := HandleBatch(s.receiver, m, cap, outcome.Completes?).out;
  }

  lemma ReceiverEvent(s: System, base: u32, u: Update, e: Event) returns (out: Option<Message>)
    requires InStep(s, base) && AwaitsApplied(s, u) && !Diverted(s, u) && Enabled(s, e)
    requires e.BeaconIn? || e.UpdateTimeout? || e.BatchIn? || e.GarbledIn?
    ensures out.Some? ==> out.value.content.Refused? || out.value.content.Done?
    ensures var t := Step(s, e); t.sender == s.sender && t.net == Put(s.net, out) && u in t.done
  {
    NothingAwaited(s, base, u);
    match e
    case BeaconIn(m, cap) =>
      assert !Diverts(s.sender.id, u, m);
      Unasked(s.receiver, m, cap);
      out := None;
    case UpdateTimeout(cap) =>
      Unasked(s.receiver, Message(Header(0, 0, 0), Done(0, 0)), cap);
      out := None;
    case BatchIn(m, cap, outcome) =>
      out := BatchEvent(s, m, cap, outcome);
    case GarbledIn(to, error, cap) =>
      out := RefuseGarbled(s.receiver, to, error, cap).out;
  }

  lemma UnendedStep(s: System, base: u32, u: Update, e: Event)
    requires Unended(s, base, u)
    ensures Unended(Step(s, e), base, u)
  {
    InStepStep(s, base, e);
    if Left(s, u) {
      LeftStep(s, u, e);
    } else if Enabled(s, e) {
      if e.BeaconIn? || e.UpdateTimeout? || e.BatchIn? || e.GarbledIn? {
        var out := ReceiverEvent(s, base, u, e);
        ReceiverUnended(s, Step(s, e), base, u, out);
      } else if !e.Give? {
        var r := SenderEvent(s, e);
        SenderUnended(s, Step(s, e), base, u, r);
      }
    }
  }

  lemma CannotEnd(t: System, base: u32, u: Update)
    requires Unended(t, base, u)
    ensures !CanEnd(t, u)
  {
    forall m, cap: nat | m in t.net && t.sender.phase == WaitAck && t.sender.update == u && EndsExchange(t.sender, m, cap)
      ensures Diverts(t.sender.id, u, m)
    {
      EndsNeeds(t.sender, m, cap);
    }
  }

  lemma EndsNeeds(a: Sender, m: Message, cap: nat)
    requires a.phase == WaitAck && a.id != ANY_RECEIVER && EndsExchange(a, m, cap)
    ensures m.content.Wanted? && m.header.receiver == a.id && m.content != Wanted(a.update.id, a.update.from)
  {}

  lemma UnendedAlways(s: System, base: u32, u: Update, t: System)
    requires InStep(s, base) && AwaitsApplied(s, u) && !Diverted(s, u) && Reaches(Step, Anything, s, t)
    ensures !CanEnd(t, u)
  {
    var es :| Always(Step, Anything, s, es) && Run(Step, s, es) == t;
    var inv := s => Unended(s, base, u);
    forall s, e | Unended(s, base, u) && Anything(s, e) ensures Unended(Step(s, e), base, u) {
      UnendedStep(s, base, u, e);
    }
    RunPreserves(Step, inv, Anything, s, es);
    CannotEnd(t, base, u);
  }

  lemma OtherRequestEnds(s: System, base: u32, u: Update, m: Message)
    requires InStep(s, base) && AwaitsApplied(s, u) && m in s.net
    requires m.content.Wanted? && m.header.receiver == s.sender.id && m.content != Wanted(u.id, u.from)
    ensures CanEnd(s, u)
  {
    assert MessageOk(s, m);
    RequestRefused(s.sender, m, 18);
  }

  /** A receiver that stands at the end of `u` asks for what leads beyond. */
  lemma NewsAsked(r: Receiver, m: Message)
    requires LegalMessage(m) && m.content.Offer? && m.content.to > r.version && r.id != 0
    requires r.expectedSender == 0 || r.expectedSender == m.header.sender
    ensures var q := Message(Header(r.id, m.header.sender, r.seqNo), Wanted(m.content.id, r.version));
            HandleBeacon(r, m, 18).out == Some(q)
  {}

  lemma OfferEnds(s: System, base: u32, u: Update, m: Message)
    requires InStep(s, base) && AwaitsApplied(s, u) && m in s.net && m.content.Offer? && m.content.to > u.to
    requires s.done[|s.done| - 1] == u
    ensures EndedSomeday(s, u)
  {
    var t, q := OfferAsked(s, base, u, m);
    InStepStep(s, base, BeaconIn(m, 18));
    OtherRequestEnds(t, base, u, q);
    ReachesSelf(Step, Anything, s);
    ReachesNext(Step, Anything, s, s, BeaconIn(m, 18));
  }

  lemma OfferAsked(s: System, base: u32, u: Update, m: Message) returns (t: System, q: Message)
    requires InStep(s, base) && m in s.net && m.content.Offer? && m.content.to > u.to
    requires s.done != [] && s.done[|s.done| - 1] == u
    ensures t == Step(s, BeaconIn(m, 18)) && t.sender == s.sender && t.done == s.done
    ensures q in t.net && q.content.Wanted? && q.header.receiver == s.sender.id && q.content != Wanted(u.id, u.from)
  {
    t := Step(s, BeaconIn(m, 18));
    OfferIsNews(s, base, u, m);
    NewsAsked(s.receiver, m);
    BeaconHandled(s, m);
    q := Message(Header(s.receiver.id, m.header.sender, s.receiver.seqNo), Wanted(m.content.id, s.receiver.version));
  }

  lemma OfferIsNews(s: System, base: u32, u: Update, m: Message)
    requires InStep(s, base) && m in s.net && m.content.Offer? && m.content.to > u.to
    requires s.done != [] && s.done[|s.done| - 1] == u
    ensures LegalMessage(m) && m.header.sender == s.sender.id && s.receiver.id != 0
    ensures m.content.to > s.receiver.version && s.receiver.version != u.from
    ensures s.receiver.expectedSender == 0 || s.receiver.expectedSender == s.sender.id
  {
    assert MessageOk(s, m) && Addresses(s.sender.id, s.receiver.id, m);
    LastApplied(s, base, u);
  }

  lemma BeaconHandled(s: System, m: Message)
    requires m in s.net
    ensures var t := Step(s, BeaconIn(m, 18));
            t.sender == s.sender && t.done == s.done && t.net == Put(s.net, HandleBeacon(s.receiver, m, 18).out)
  {}

  /** If `u` is not the update applied last, the request for that one is still under way. */
  lemma LaterRequest(s: System, base: u32, u: Update)
    requires InStep(s, base) && AwaitsApplied(s, u) && s.done[|s.done| - 1] != u
    ensures CanEnd(s, u)
  {
    var v := s.done[|s.done| - 1];
    assert v in s.done && u in s.given && v in s.given;
    DistinctIds(s.given, u, v);
    var c := Wanted(v.id, v.from);
    var m :| m in s.net && m.header.sender == s.receiver.id && m.header.receiver == s.sender.id && m.content == c;
    OtherRequestEnds(s, base, u, m);
  }

  lemma DivertedIsEnded(s: System, base: u32, u: Update)
    requires InStep(s, base) && AwaitsApplied(s, u) && Diverted(s, u)
    ensures EndedSomeday(s, u)
  {
    ReachesSelf(Step, Anything, s);
    var m :| m in s.net && Diverts(s.sender.id, u, m);
    if m.content.Wanted? {
      OtherRequestEnds(s, base, u, m);
    } else if s.done[|s.done| - 1] == u {
      OfferEnds(s, base, u, m);
    } else {
      LaterRequest(s, base, u);
    }
  }

  /**
   While the sender awaits the ACK of an applied update, some later run ends
   the exchange by a request, damaged frames or not, if and only if the link
   holds a request to it for anything else or an offer that leads beyond the
   update.
   */
  lemma EndedExactly(s: System, base: u32, u: Update)
    requires InStep(s, base) && AwaitsApplied(s, u)
    ensures EndedSomeday(s, u) <==> Diverted(s, u)
  {
    if Diverted(s, u) {
      DivertedIsEnded(s, base, u);
    } else {
      forall t | Reaches(Step, Anything, s, t) ensures !CanEnd(t, u) {
        UnendedAlways(s, base, u, t);
      }
    }
  }

  // ---------- In every run ----------

  /** Both conditions, in every state reached from initialisation in which an applied update is awaited. */
  lemma AppliedMayBeRefused(s: System, es: seq<Event>, u: Update)
    requires Fresh(s) && !s.receiver.waiting && LegacyExchange.Paired(s.sender, s.receiver)
    requires AwaitsApplied(Run(Step, s, es), u)
    ensures var t := Run(Step, s, es);
            && (RefusedSomeday(t, u, Intact) <==> Misled(t, u))
            && (EndedSomeday(t, u) <==> Diverted(t, u))
            && RefusedSomeday(t, u, Anything)
  {
    var t, base := Run(Step, s, es), s.receiver.version;
    InStepAlways(s, es);
    RefusedExactly(t, base, u);
    EndedExactly(t, base, u);
    DamageRefuses(t, base, u);
  }

  // ---------- Nothing lost, nothing refused ----------

  /** The batch of `u` arrived and the engine completed it. */
  lemma AppliedNext(o: System, s: System, u: Update, cap: nat) returns (v: System, b: Message, a: Message)
    requires ReadyFor(s, u, cap) && Reaches(Step, Anything, o, s)
    ensures Reaches(Step, Anything, o, v) && v.sender.phase == WaitAck && v.sender.update == u && v.sender.id == s.sender.id
    ensures v.given == s.given + {u} && v.done == s.done + [u]
    ensures b in v.net && b.content == Batch(u) && s.net <= v.net && OnlyAbout(u, s.net, v.net)
    ensures a in v.net && a.header.receiver == s.sender.id && a.content == Done(u.id, u.to)
    ensures v.receiver.id == s.receiver.id && v.receiver.expectedSender == s.receiver.expectedSender
    ensures v.receiver.version == v.receiver.last.to == u.to && v.receiver.last.id == u.id
  {
    var t, q;
    t, b, q := BatchSent(o, s, u, cap);
    v, a := BatchSucceeds(o, s, t, u, b, cap);
  }

  /** And the ACK got through. */
  lemma Confirmed(o: System, s: System, u: Update, cap: nat) returns (v: System, b: Message)
    requires ReadyFor(s, u, cap) && Reaches(Step, Anything, o, s)
    ensures Reaches(Step, Anything, o, v) && v.sender.phase == Idle && v.given == s.given + {u} && v.done == s.done + [u]
    ensures b in v.net && b.content == Batch(u) && OnlyAbout(u, s.net, v.net) && v.sender.id == s.sender.id
    ensures v.receiver.id == s.receiver.id && v.receiver.expectedSender == s.receiver.expectedSender
    ensures v.receiver.version == v.receiver.last.to == u.to && v.receiver.last.id == u.id
  {
    var w, a;
    w, b, a := AppliedNext(o, s, u, cap);
    ReachesNext(Step, Anything, o, w, AnswerIn(a));
    v := Step(w, AnswerIn(a));
  }

  /** Two updates may follow one another. */
  predicate Follow(s: System, first: Update, second: Update, cap: nat) {
    && ReadyFor(s, first, cap) && second.from == first.to < second.to && second.id != first.id && second.id != 0
    && ValidBatch(second.removes, second.adds) && cap >= UpdateLength(second)
    && forall g :: g in s.given ==> g.id != second.id
  }

  lemma BothApplied(s: System, first: Update, second: Update, cap: nat) returns (v: System, b: Message)
    requires Follow(s, first, second, cap)
    ensures Reaches(Step, Anything, s, v) && v.done == s.done + [first, second] && AwaitsApplied(v, second)
    ensures b in v.net && b.content == Batch(first) && forall m :: m in v.net && m !in s.net ==> !m.content.Refused?
  {
    ReachesSelf(Step, Anything, s);
    var w, c, a;
    w, b := Confirmed(s, s, first, cap);
    v, c, a := AppliedNext(s, w, second, cap);
  }

  /**
   Two updates are applied one after the other, every message delivered once
   and no NACK ever sent. While the ACK of the second is under way, a second
   copy of the first batch is enough for the second to be reported as refused.
   */
  lemma OldBatchSuffices(s: System, first: Update, second: Update, cap: nat) returns (v: System)
    requires Fresh(s) && !s.receiver.waiting && Follow(s, first, second, cap)
    ensures Reaches(Step, Anything, s, v) && v.done == [first, second] && AwaitsApplied(v, second)
    ensures (forall m :: m in v.net ==> !m.content.Refused?) && RefusedSomeday(v, second, Intact)
  {
    var b;
    v, b := BothApplied(s, first, second, cap);
    var es :| Always(Step, Anything, s, es) && Run(Step, s, es) == v;
    AppliedMayBeRefused(s, es, second);
    assert Misleads(v.sender.id, second, b);
  }

  const THEN := Update(2, 1, 2, [], [])

  lemma OldBatchHappens() returns (v: System)
    ensures Fresh(Start()) && Reaches(Step, Anything, Start(), v) && AwaitsApplied(v, THEN)
    ensures (forall m :: m in v.net ==> !m.content.Refused?) && RefusedSomeday(v, THEN, Intact)
  {
    StartsReady(FIRST);
    v := OldBatchSuffices(Start(), FIRST, THEN, 1000);
  }
}
