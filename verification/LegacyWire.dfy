/**
 The batch protocol on bytes: the link carries serialized messages and may
 damage them. Damage the checksum exposes is loss, but for a batch frame, which
 the receiver then refuses.
 */
module LegacyWire {
  import opened Words
  import opened CrcDetection
  import opened CrcOrder
  import opened Framing
  import opened Operations
  import opened Runs
  import opened UpdateFrames
  import opened Batches
  import opened LegacyModel
  import opened LegacyFrames
  import opened LegacyChain

  /** `ends` is everything but the link. */
  datatype WireSystem = WireSystem(ends: System, net: set<seq<byte>>)

  datatype WireEvent =
    | Offers(target: u16, u: Update)
    | Announces(cap: nat)
    | SenderWaited(cap: nat)
    | ReceiverWaited(cap: nat)
    | RequestBytes(b: seq<byte>, cap: nat)
    | AnswerBytes(b: seq<byte>)
    | BeaconBytes(b: seq<byte>, cap: nat)
    | BatchBytes(b: seq<byte>, cap: nat, outcome: Outcome)

  ghost predicate FromLink(w: WireSystem, e: WireEvent) {
    match e
    case RequestBytes(b, _) => Arrives(w.net, b)
    case AnswerBytes(b) => Arrives(w.net, b)
    case BeaconBytes(b, _) => Arrives(w.net, b)
    case BatchBytes(b, _, _) => Arrives(w.net, b)
    case _ => true
  }

  function SentBytes(net: set<seq<byte>>, m: Option<Message>): set<seq<byte>> {
    match m
    case None => net
    case Some(x) => net + {SerializeMessage(x)}
  }

  function SenderSays(w: WireSystem, r: Sending): WireSystem {
    WireSystem(w.ends.(sender := r.state), SentBytes(w.net, r.out))
  }

  function ReceiverSays(w: WireSystem, r: Reaction): WireSystem {
    WireSystem(w.ends.(receiver := r.state), SentBytes(w.net, r.out))
  }

  function Told(w: WireSystem, answer: (Sender, Verdict)): WireSystem {
    var s := w.ends;
    w.(ends := s.(sender := answer.0,
                  confirmed := if answer.1 == Applied then s.confirmed + {s.sender.update} else s.confirmed))
  }

  /** One call of either context on bytes; bytes the link cannot deliver change nothing. */
  ghost function WireStep(w: WireSystem, e: WireEvent): WireSystem {
    if !FromLink(w, e) then w
    else
      match e
      case Offers(target, u) => w.(ends := Step(w.ends, Give(target, u)))
      case Announces(cap) => SenderSays(w, BuildBeacon(w.ends.sender, cap))
      case SenderWaited(cap) => SenderSays(w, OnAckTimeout(w.ends.sender, cap))
      case ReceiverWaited(cap) => ReceiverSays(w, OnUpdateTimeout(w.ends.receiver, cap))
      case RequestBytes(b, cap) => SenderSays(w, RequestFrame(w.ends.sender, b, cap))
      case AnswerBytes(b) => Told(w, AnswerFrame(w.ends.sender, b))
      case BeaconBytes(b, cap) => ReceiverSays(w, BeaconFrame(w.ends.receiver, b, cap))
      case BatchBytes(b, cap, outcome) =>
        var r := BatchFrame(w.ends.receiver, b, cap, outcome.Completes?);
        Engaged(ReceiverSays(w, r), DecodeMessage(b), r.tried, outcome)
  }

  /** The engine's part, if it was handed the batch that arrived. */
  function Engaged(w: WireSystem, arrived: Option<Message>, tried: bool, outcome: Outcome): WireSystem {
    match arrived
    case Some(m) => if tried && m.content.Batch? then w.(ends := Attempt(w.ends, m.content.u, outcome)) else w
    case None => w
  }

  // ---------- Refinement ----------

  /** Everything in the link was put there by an encoder. */
  predicate AllMessages(net: set<seq<byte>>) {
    forall b :: b in net ==> DecodeMessage(b).Some?
  }

  function Messages(net: set<seq<byte>>): set<Message> {
    set b | b in net && DecodeMessage(b).Some? :: DecodeMessage(b).value
  }

  function Abstract(w: WireSystem): System {
    w.ends.(net := Messages(w.net))
  }

  /** What bytes that arrive decode to was sent; what does not decode has no valid checksum. */
  lemma ArrivedBytes(net: set<seq<byte>>, b: seq<byte>)
    requires AllMessages(net) && Arrives(net, b)
    ensures |b| >= 10
    ensures match DecodeMessage(b)
            case Some(m) => LegalMessage(m) && m in Messages(net)
            case None => !ValidCrc(b)
  {
    if b !in net {
      var sent :| sent in net && Detectable(sent, b);
      DetectableRejected(sent, b);
    }
  }

  lemma SentMessages(net: set<seq<byte>>, m: Option<Message>)
    requires AllMessages(net) && (m.Some? ==> LegalMessage(m.value))
    ensures AllMessages(SentBytes(net, m)) && Messages(SentBytes(net, m)) == Put(Messages(net), m)
  {
    if m.Some? {
      DecodeSerializeMessage(m.value);
      var b := SerializeMessage(m.value);
      forall x ensures x in Messages(net + {b}) <==> x in Messages(net) + {m.value} {
        if x in Messages(net) {
          var c :| c in net && DecodeMessage(c) == Some(x);
          assert c in net + {b};
        }
        if x == m.value {
          assert b in net + {b};
        }
      }
    }
  }

  /** What a byte-level event amounts to on messages; None if it amounts to loss. */
  function Meaning(w: WireSystem, e: WireEvent): Option<Event> {
    match e
    case Offers(target, u) => Some(Give(target, u))
    case Announces(cap) => Some(Announce(cap))
    case SenderWaited(cap) => Some(AckTimeout(cap))
    case ReceiverWaited(cap) => Some(UpdateTimeout(cap))
    case RequestBytes(b, cap) => (match DecodeMessage(b) case None => None case Some(m) => Some(RequestIn(m, cap)))
    case AnswerBytes(b) => (match DecodeMessage(b) case None => None case Some(m) => Some(AnswerIn(m)))
    case BeaconBytes(b, cap) => (match DecodeMessage(b) case None => None case Some(m) => Some(BeaconIn(m, cap)))
    case BatchBytes(b, cap, outcome) =>
      if |b| < 8 then None
      else
        match DecodeMessage(b)
        case Some(m) =>
          if m.content.Batch? then Some(BatchIn(m, cap, outcome)) else Some(Garbled(w, b, cap))
        case None => Some(Garbled(w, b, cap))
  }

  function Garbled(w: WireSystem, b: seq<byte>, cap: nat): Event
    requires |b| >= 8
  {
    GarbledIn(ReadHeader(b).sender, BatchFrameError(w.ends.receiver, b), cap)
  }

  lemma SenderSaid(w: WireSystem, r: Sending)
    requires AllMessages(w.net) && (r.out.Some? ==> LegalMessage(r.out.value))
    ensures AllMessages(SenderSays(w, r).net)
    ensures Abstract(SenderSays(w, r)) == Abstract(w).(sender := r.state, net := Put(Messages(w.net), r.out))
  {
    SentMessages(w.net, r.out);
  }

  lemma ReceiverSaid(w: WireSystem, r: Reaction)
    requires AllMessages(w.net) && (r.out.Some? ==> LegalMessage(r.out.value))
    ensures AllMessages(ReceiverSays(w, r).net)
    ensures Abstract(ReceiverSays(w, r)) == Abstract(w).(receiver := r.state, net := Put(Messages(w.net), r.out))
  {
    SentMessages(w.net, r.out);
  }

  /** From `w` to `v` the bytes did what event `e` does on messages, or nothing. */
  ghost predicate Refines(w: WireSystem, v: WireSystem, e: Option<Event>) {
    && AllMessages(v.net)
    && Abstract(v) == match e case None => Abstract(w) case Some(x) => Step(Abstract(w), x)
  }

  lemma RequestTaken(w: WireSystem, m: Message, cap: nat)
    requires AllMessages(w.net) && m in Messages(w.net) && LegalMessage(m)
    ensures Refines(w, SenderSays(w, HandleRequest(w.ends.sender, m, cap)), Some(RequestIn(m, cap)))
  {
    SenderSaid(w, HandleRequest(w.ends.sender, m, cap));
  }

  lemma RequestRefines(w: WireSystem, b: seq<byte>, cap: nat)
    requires AllMessages(w.net) && Arrives(w.net, b)
    ensures Refines(w, SenderSays(w, RequestFrame(w.ends.sender, b, cap)), Meaning(w, RequestBytes(b, cap)))
  {
    ArrivedBytes(w.net, b);
    if DecodeMessage(b).Some? {
      RequestFrameRefines(w.ends.sender, b, cap);
      RequestTaken(w, DecodeMessage(b).value, cap);
    } else {
      assert RequestFrame(w.ends.sender, b, cap) == Sending(w.ends.sender, None);
    }
  }

  lemma BeaconTaken(w: WireSystem, m: Message, cap: nat)
    requires AllMessages(w.net) && m in Messages(w.net)
    ensures Refines(w, ReceiverSays(w, HandleBeacon(w.ends.receiver, m, cap)), Some(BeaconIn(m, cap)))
  {
    ReceiverSaid(w, HandleBeacon(w.ends.receiver, m, cap));
  }

  lemma BeaconArrived(w: WireSystem, b: seq<byte>, m: Message, cap: nat)
    requires AllMessages(w.net) && m in Messages(w.net) && DecodeMessage(b) == Some(m)
    ensures Refines(w, ReceiverSays(w, BeaconFrame(w.ends.receiver, b, cap)), Meaning(w, BeaconBytes(b, cap)))
  {
    BeaconFrameRefines(w.ends.receiver, b, cap);
    BeaconTaken(w, m, cap);
  }

  lemma BeaconLost(w: WireSystem, b: seq<byte>, cap: nat)
    requires AllMessages(w.net) && DecodeMessage(b) == None
    ensures Refines(w, ReceiverSays(w, BeaconFrame(w.ends.receiver, b, cap)), Meaning(w, BeaconBytes(b, cap)))
  {
    assert BeaconFrame(w.ends.receiver, b, cap) == Reaction(w.ends.receiver, None, false);
  }

  lemma BatchSays(r: Receiver, m: Message, cap: nat, works: bool)
    requires m.content.Batch? && LegalMessage(m)
    ensures var e := HandleBatch(r, m, cap, works); e.out.Some? ==> LegalMessage(e.out.value)
  {}

  lemma BatchHandled(s: System, m: Message, cap: nat, outcome: Outcome, r: Reaction)
    requires m in s.net && LegalMessage(m) && m.content.Batch? && r == HandleBatch(s.receiver, m, cap, outcome.Completes?)
    ensures var tried := s.(receiver := r.state, net := Put(s.net, r.out));
            Step(s, BatchIn(m, cap, outcome)) == if r.tried then Attempt(tried, m.content.u, outcome) else tried
  {}

  lemma EngagedAbstract(w: WireSystem, m: Message, tried: bool, outcome: Outcome)
    requires m.content.Batch?
    ensures var v := Engaged(w, Some(m), tried, outcome);
            v.net == w.net && Abstract(v) == if tried then Attempt(Abstract(w), m.content.u, outcome) else Abstract(w)
  {}

  lemma BatchTaken(w: WireSystem, m: Message, cap: nat, outcome: Outcome)
    requires AllMessages(w.net) && m in Messages(w.net) && LegalMessage(m) && m.content.Batch?
    ensures var r := HandleBatch(w.ends.receiver, m, cap, outcome.Completes?);
            Refines(w, Engaged(ReceiverSays(w, r), Some(m), r.tried, outcome), Some(BatchIn(m, cap, outcome)))
  {
    var r := HandleBatch(w.ends.receiver, m, cap, outcome.Completes?);
    BatchSays(w.ends.receiver, m, cap, outcome.Completes?);
    BatchSaid(w, m, cap, outcome, r);
  }

  lemma BatchSaid(w: WireSystem, m: Message, cap: nat, outcome: Outcome, r: Reaction)
    requires AllMessages(w.net) && m in Messages(w.net) && LegalMessage(m) && m.content.Batch?
    requires r == HandleBatch(w.ends.receiver, m, cap, outcome.Completes?) && (r.out.Some? ==> LegalMessage(r.out.value))
    ensures Refines(w, Engaged(ReceiverSays(w, r), Some(m), r.tried, outcome), Some(BatchIn(m, cap, outcome)))
  {
    ReceiverSaid(w, r);
    BatchHandled(Abstract(w), m, cap, outcome, r);
    EngagedAbstract(ReceiverSays(w, r), m, r.tried, outcome);
  }

  lemma GarbledTaken(w: WireSystem, decoded: Option<Message>, to: u16, error: u16, cap: nat, outcome: Outcome)
    requires AllMessages(w.net)
    ensures var r := RefuseGarbled(w.ends.receiver, to, error, cap);
            Refines(w, Engaged(ReceiverSays(w, r), decoded, r.tried, outcome), Some(GarbledIn(to, error, cap)))
  {
    ReceiverSaid(w, RefuseGarbled(w.ends.receiver, to, error, cap));
  }

  lemma BatchMeant(w: WireSystem, b: seq<byte>, cap: nat, outcome: Outcome)
    requires DecodeMessage(b).Some? && DecodeMessage(b).value.content.Batch? && |b| >= 8
    ensures Meaning(w, BatchBytes(b, cap, outcome)) == Some(BatchIn(DecodeMessage(b).value, cap, outcome))
  {}

  lemma SameRefines(w: WireSystem, v: WireSystem, v': WireSystem, e: Option<Event>, e': Option<Event>)
    requires Refines(w, v, e) && v' == v && e' == e
    ensures Refines(w, v', e')
  {}

  lemma BatchArrived(w: WireSystem, b: seq<byte>, m: Message, cap: nat, outcome: Outcome)
    requires AllMessages(w.net) && m in Messages(w.net) && LegalMessage(m) && |b| >= 8
    requires DecodeMessage(b) == Some(m) && m.content.Batch?
    ensures var r := BatchFrame(w.ends.receiver, b, cap, outcome.Completes?);
            Refines(w, Engaged(ReceiverSays(w, r), DecodeMessage(b), r.tried, outcome),
                    Meaning(w, BatchBytes(b, cap, outcome)))
  {
    BatchFrameRefines(w.ends.receiver, b, cap, outcome.Completes?);
    BatchTaken(w, m, cap, outcome);
    BatchMeant(w, b, cap, outcome);
    var r := BatchFrame(w.ends.receiver, b, cap, outcome.Completes?);
    var q := HandleBatch(w.ends.receiver, m, cap, outcome.Completes?);
    SameRefines(w, Engaged(ReceiverSays(w, q), Some(m), q.tried, outcome),
                Engaged(ReceiverSays(w, r), DecodeMessage(b), r.tried, outcome),
                Some(BatchIn(m, cap, outcome)), Meaning(w, BatchBytes(b, cap, outcome)));
  }

  lemma OtherArrived(w: WireSystem, b: seq<byte>, cap: nat, outcome: Outcome)
    requires AllMessages(w.net) && |b| >= 8 && !(DecodeMessage(b).Some? && DecodeMessage(b).value.content.Batch?)
    ensures var r := BatchFrame(w.ends.receiver, b, cap, outcome.Completes?);
            Refines(w, Engaged(ReceiverSays(w, r), DecodeMessage(b), r.tried, outcome),
                    Meaning(w, BatchBytes(b, cap, outcome)))
  {
    var to, error := ReadHeader(b).sender, BatchFrameError(w.ends.receiver, b);
    OtherFramesRefused(w.ends.receiver, b, cap, outcome.Completes?);
    GarbledTaken(w, DecodeMessage(b), to, error, cap, outcome);
    var r, q := BatchFrame(w.ends.receiver, b, cap, outcome.Completes?), RefuseGarbled(w.ends.receiver, to, error, cap);
    SameRefines(w, Engaged(ReceiverSays(w, q), DecodeMessage(b), q.tried, outcome),
                Engaged(ReceiverSays(w, r), DecodeMessage(b), r.tried, outcome),
                Some(GarbledIn(to, error, cap)), Meaning(w, BatchBytes(b, cap, outcome)));
  }

  /** Every step on bytes is the step on messages it means, or no step at all. */
  lemma WireRefines(w: WireSystem, e: WireEvent)
    requires AllMessages(w.net) && FromLink(w, e)
    ensures Refines(w, WireStep(w, e), Meaning(w, e))
  {
    match e
    case RequestBytes(b, cap) => RequestRefines(w, b, cap);
    case AnswerBytes(b) =>
      ArrivedBytes(w.net, b);
      if DecodeMessage(b).Some? {
        AnswerArrived(w, b, DecodeMessage(b).value);
      } else {
        AnswerLost(w, b);
      }
    case BeaconBytes(b, cap) =>
      ArrivedBytes(w.net, b);
      if DecodeMessage(b).Some? {
        BeaconArrived(w, b, DecodeMessage(b).value, cap);
      } else {
        BeaconLost(w, b, cap);
      }
    case BatchBytes(b, cap, outcome) =>
      ArrivedBytes(w.net, b);
      if DecodeMessage(b).Some? && DecodeMessage(b).value.content.Batch? {
        BatchArrived(w, b, DecodeMessage(b).value, cap, outcome);
      } else {
        OtherArrived(w, b, cap, outcome);
      }
    case _ => CallRefines(w, e);
  }

  lemma CallRefines(w: WireSystem, e: WireEvent)
    requires AllMessages(w.net) && (e.Offers? || e.Announces? || e.SenderWaited? || e.ReceiverWaited?)
    ensures Refines(w, WireStep(w, e), Meaning(w, e))
  {
    match e
    case Offers(_, _) =>
    case Announces(cap) => SenderSaid(w, BuildBeacon(w.ends.sender, cap));
    case SenderWaited(cap) => SenderSaid(w, OnAckTimeout(w.ends.sender, cap));
    case ReceiverWaited(cap) => ReceiverSaid(w, OnUpdateTimeout(w.ends.receiver, cap));
  }

  lemma AnswerTaken(w: WireSystem, m: Message)
    requires AllMessages(w.net) && m in Messages(w.net)
    ensures Refines(w, Told(w, HandleAnswer(w.ends.sender, m)), Some(AnswerIn(m)))
  {}

  lemma AnswerArrived(w: WireSystem, b: seq<byte>, m: Message)
    requires AllMessages(w.net) && m in Messages(w.net) && DecodeMessage(b) == Some(m)
    ensures Refines(w, Told(w, AnswerFrame(w.ends.sender, b)), Meaning(w, AnswerBytes(b)))
  {
    AnswerFrameRefines(w.ends.sender, b);
    AnswerTaken(w, m);
  }

  lemma AnswerLost(w: WireSystem, b: seq<byte>)
    requires AllMessages(w.net) && DecodeMessage(b) == None
    ensures Refines(w, Told(w, AnswerFrame(w.ends.sender, b)), Meaning(w, AnswerBytes(b)))
  {
    assert AnswerFrame(w.ends.sender, b) == (w.ends.sender, Nothing);
  }

  /** A damaged batch frame is refused to whom its header names; for an applied update that is one NACK too many. */
  lemma DamagedBatchRefused(w: WireSystem, b: seq<byte>, cap: nat, outcome: Outcome)
    requires AllMessages(w.net) && Arrives(w.net, b) && DecodeMessage(b) == None
    ensures |b| >= 8 && Meaning(w, BatchBytes(b, cap, outcome)) == Some(GarbledIn(ReadHeader(b).sender, ERR_CRC_FAIL, cap))
  {
    ArrivedBytes(w.net, b);
    DamagedError(w.ends.receiver, b);
    OtherMeant(w, b, cap, outcome);
  }

  lemma OtherMeant(w: WireSystem, b: seq<byte>, cap: nat, outcome: Outcome)
    requires |b| >= 8 && DecodeMessage(b) == None
    ensures Meaning(w, BatchBytes(b, cap, outcome)) == Some(Garbled(w, b, cap))
  {}

  // ---------- The version chain, end to end ----------

  ghost predicate WireChained(w: WireSystem, base: u32) {
    AllMessages(w.net) && Chained(Abstract(w), base)
  }

  lemma WireChainStep(w: WireSystem, base: u32, e: WireEvent)
    requires WireChained(w, base)
    ensures WireChained(WireStep(w, e), base)
  {
    if FromLink(w, e) {
      WireRefines(w, e);
      match Meaning(w, e)
      case None =>
      case Some(m) => ChainStep(Abstract(w), base, m);
    }
  }

  /** The version chain holds in every state reached over a link that also damages bytes. */
  lemma WireVersionChain(w: WireSystem, es: seq<WireEvent>)
    requires w.net == {} && Fresh(w.ends)
    ensures var t := Run(WireStep, w, es).ends;
            && (forall k :: 0 <= k < |t.done| ==>
                  t.done[k] in t.given && ValidBatch(t.done[k].removes, t.done[k].adds) &&
                  t.done[k].to > t.done[k].from == VersionAfter(w.ends.receiver.version, t.done[..k]))
            && (forall i, j :: 0 <= i < j < |t.done| ==> t.done[i] != t.done[j])
            && t.receiver.version == VersionAfter(w.ends.receiver.version, t.done)
            && (forall u :: u in t.confirmed ==> u in t.done)
  {
    var base := w.ends.receiver.version;
    var chained := w => WireChained(w, base);
    var any := (w: WireSystem, e: WireEvent) => true;
    forall w, e | WireChained(w, base) ensures WireChained(WireStep(w, e), base) {
      WireChainStep(w, base, e);
    }
    assert Messages(w.net) == {};
    AlwaysTrue(WireStep, any, w, es);
    RunPreserves(WireStep, chained, any, w, es);
    ChainFacts(Abstract(Run(WireStep, w, es)), base);
  }
}
