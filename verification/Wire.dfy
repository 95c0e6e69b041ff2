/**
 The same system on bytes: the link carries serialized frames and may also
 damage them. Damage by one, two, three or any odd number of flipped bits, or
 inside a 16-bit window before the footer, is as good as loss.
 */
module Wire {
  import opened Words
  import opened CrcOrder
  import opened OpFrames
  import opened Operations
  import opened Runs
  import S = SenderModel
  import R = Receiver
  import opened Replication

  datatype WireSystem = WireSystem(sender: S.State, nodes: map<u16, Node>, net: set<seq<byte>>)

  datatype WireEvent =
    | Call(call: S.Event)
    | Announce(cap: nat)
    | BytesToSender(b: seq<byte>, now: u64)
    | DataBytesTo(rid: u16, b: seq<byte>, cap: nat, callback: R.Callback)
    | BeaconBytesTo(rid: u16, b: seq<byte>, cap: nat)
    | Reboot(rid: u16, position: u32)

  function SentBytes(net: set<seq<byte>>, f: Option<Frame>): set<seq<byte>> {
    match f
    case None => net
    case Some(frame) => net + {Serialize(frame)}
  }

  /** One step on bytes; an event that cannot happen changes nothing. */
  ghost function WireStep(w: WireSystem, e: WireEvent): WireSystem {
    match e
    case Call(call) =>
      if !Enabled(System(w.sender, w.nodes, {}), Local(call)) then w
      else
        var frame := if call.PollEvent? then S.Poll(w.sender, call.now, call.cap).frame else None;
        w.(sender := S.Step(w.sender, call), net := SentBytes(w.net, frame))
    case Announce(cap) => w.(net := SentBytes(w.net, S.BeaconFrame(w.sender, cap)))
    case BytesToSender(b, now) =>
      if !Arrives(w.net, b) then w
      else
        (match DecodeAny(b)
         case None => w
         case Some(f) => w.(sender := S.HandleRx(w.sender, now, f).0))
    case DataBytesTo(rid, b, cap, callback) =>
      if !Arrives(w.net, b) || rid !in w.nodes then w
      else
        (match Decode(DATA, b)
         case None => w
         case Some(f) =>
           SerializeDecode(DATA, b);
           w.(nodes := w.nodes[rid := AfterData(w.nodes[rid], f, cap, callback)],
              net := SentBytes(w.net, R.HandleData(w.nodes[rid].r, f, cap, callback).reply)))
    case BeaconBytesTo(rid, b, cap) =>
      if !Arrives(w.net, b) || rid !in w.nodes then w
      else
        (match Decode(BEACON, b)
         case None => w
         case Some(f) =>
           SerializeDecode(BEACON, b);
           var a := R.HandleBeacon(w.nodes[rid].r, f, cap);
           w.(nodes := w.nodes[rid := w.nodes[rid].(r := a.state)], net := SentBytes(w.net, a.reply)))
    case Reboot(rid, position) =>
      if !(rid in w.nodes && position <= w.nodes[rid].r.last) then w
      else w.(nodes := w.nodes[rid := AfterRestart(w.nodes[rid], position)])
  }

  /** The frames a set of byte strings stands for. */
  function Frames(net: set<seq<byte>>): set<Frame> {
    set b | b in net && DecodeAny(b).Some? :: DecodeAny(b).value
  }

  function Abstract(w: WireSystem): System {
    System(w.sender, w.nodes, Frames(w.net))
  }

  /** Everything on the wire was put there by an encoder. */
  predicate AllFrames(net: set<seq<byte>>) {
    forall b :: b in net ==> DecodeAny(b).Some?
  }

  lemma DecodeAnyIsDecode(t: byte, b: seq<byte>)
    requires Decode(t, b).Some?
    ensures DecodeAny(b) == Decode(t, b)
  {}

  /** Damaged bytes decode to nothing; what decodes was sent as it is. */
  lemma OnlySentFramesDecode(net: set<seq<byte>>, b: seq<byte>)
    requires AllFrames(net) && Arrives(net, b) && DecodeAny(b).Some?
    ensures b in net && DecodeAny(b).value in Frames(net)
  {
    if b !in net {
      var sent :| sent in net && Detectable(sent, b);
      DamageRejected(0, sent, b);
      assert false;
    }
  }

  lemma DecodedWasSent(net: set<seq<byte>>, t: byte, b: seq<byte>)
    requires AllFrames(net) && Arrives(net, b) && Decode(t, b).Some?
    ensures var f := Decode(t, b).value; Legal(f) && TypeOf(f.payload) == t && f in Frames(net)
  {
    SerializeDecode(t, b);
    DecodeAnyIsDecode(t, b);
    OnlySentFramesDecode(net, b);
  }

  lemma SentFrames(net: set<seq<byte>>, f: Option<Frame>)
    requires AllFrames(net) && (f.Some? ==> Legal(f.value))
    ensures AllFrames(SentBytes(net, f)) && Frames(SentBytes(net, f)) == Sent(Frames(net), f)
  {
    if f.Some? {
      DecodeSerialize(f.value);
      var b := Serialize(f.value);
      forall g ensures g in Frames(net + {b}) <==> g in Frames(net) + {f.value} {
        if g in Frames(net) {
          var c :| c in net && DecodeAny(c) == Some(g);
          assert c in net + {b};
        }
        if g == f.value {
          assert b in net + {b};
        }
      }
    }
  }

  lemma EmittedFramesLegal(s: S.State, now: u64, cap: nat)
    ensures S.Poll(s, now, cap).frame.Some? ==> Legal(S.Poll(s, now, cap).frame.value)
  {}

  /** What a byte-level event amounts to on frames; None if it amounts to loss. */
  function Meaning(e: WireEvent): Option<Event> {
    match e
    case Call(call) => Some(Local(call))
    case Announce(cap) => Some(SendBeacon(cap))
    case BytesToSender(b, now) =>
      (match DecodeAny(b) case None => None case Some(f) => Some(ToSender(f, now)))
    case DataBytesTo(rid, b, cap, callback) =>
      (match Decode(DATA, b) case None => None case Some(f) => Some(DataTo(rid, f, cap, callback)))
    case BeaconBytesTo(rid, b, cap) =>
      (match Decode(BEACON, b) case None => None case Some(f) => Some(BeaconTo(rid, f, cap)))
    case Reboot(rid, position) => Some(Restart(rid, position))
  }

  /** An event is honest when the bytes it delivers come out of the link. */
  ghost predicate FromLink(w: WireSystem, e: WireEvent) {
    match e
    case BytesToSender(b, _) => Arrives(w.net, b)
    case DataBytesTo(_, b, _, _) => Arrives(w.net, b)
    case BeaconBytesTo(_, b, _) => Arrives(w.net, b)
    case _ => true
  }

  /** Every step on bytes is the step on frames it means, or no step at all. */
  lemma WireRefines(w: WireSystem, e: WireEvent)
    requires AllFrames(w.net) && FromLink(w, e)
    ensures AllFrames(WireStep(w, e).net)
    ensures Abstract(WireStep(w, e))
            == match Meaning(e) case None => Abstract(w) case Some(m) => Step(Abstract(w), m)
  {
    match e
    case Call(call) => CallRefines(w, call);
    case Announce(cap) => SentFrames(w.net, S.BeaconFrame(w.sender, cap));
    case BytesToSender(b, now) =>
      if DecodeAny(b).Some? {
        OnlySentFramesDecode(w.net, b);
      }
    case DataBytesTo(rid, b, cap, callback) =>
      if Decode(DATA, b).Some? {
        DataRefines(w, rid, b, cap, callback);
      }
    case BeaconBytesTo(rid, b, cap) =>
      if Decode(BEACON, b).Some? {
        BeaconRefines(w, rid, b, cap);
      }
    case Reboot(rid, position) =>
  }

  lemma CallRefines(w: WireSystem, call: S.Event)
    requires AllFrames(w.net)
    ensures AllFrames(WireStep(w, Call(call)).net)
    ensures Abstract(WireStep(w, Call(call))) == Step(Abstract(w), Local(call))
  {
    if call.PollEvent? {
      EmittedFramesLegal(w.sender, call.now, call.cap);
      SentFrames(w.net, S.Poll(w.sender, call.now, call.cap).frame);
    }
  }

  lemma DataRefines(w: WireSystem, rid: u16, b: seq<byte>, cap: nat, callback: R.Callback)
    requires AllFrames(w.net) && Arrives(w.net, b) && Decode(DATA, b).Some?
    ensures AllFrames(WireStep(w, DataBytesTo(rid, b, cap, callback)).net)
    ensures Abstract(WireStep(w, DataBytesTo(rid, b, cap, callback)))
            == Step(Abstract(w), DataTo(rid, Decode(DATA, b).value, cap, callback))
  {
    DecodedWasSent(w.net, DATA, b);
    var f := Decode(DATA, b).value;
    if rid in w.nodes {
      R.AnswersTellPosition(w.nodes[rid].r, f, cap, callback);
      SentFrames(w.net, R.HandleData(w.nodes[rid].r, f, cap, callback).reply);
    }
  }

  lemma BeaconRefines(w: WireSystem, rid: u16, b: seq<byte>, cap: nat)
    requires AllFrames(w.net) && Arrives(w.net, b) && Decode(BEACON, b).Some?
    ensures AllFrames(WireStep(w, BeaconBytesTo(rid, b, cap)).net)
    ensures Abstract(WireStep(w, BeaconBytesTo(rid, b, cap)))
            == Step(Abstract(w), BeaconTo(rid, Decode(BEACON, b).value, cap))
  {
    DecodedWasSent(w.net, BEACON, b);
    if rid in w.nodes {
      SentFrames(w.net, R.HandleBeacon(w.nodes[rid].r, Decode(BEACON, b).value, cap).reply);
    }
  }

  ghost predicate WireSafe(w: WireSystem) {
    AllFrames(w.net) && Safe(Abstract(w))
  }

  lemma WireSafeStep(w: WireSystem, e: WireEvent)
    requires WireSafe(w)
    ensures WireSafe(WireStep(w, e))
  {
    if FromLink(w, e) {
      WireRefines(w, e);
      match Meaning(e)
      case None =>
      case Some(m) => SafeStep(Abstract(w), m);
    }
  }

  /**
   Prefix consistency end to end: over a link that loses, duplicates, reorders
   and damages bytes, what a receiver applied since it started is the sender's
   log from there on, and its set, once past what it already reflected, is the
   fold of that prefix.
   */
  lemma WirePrefixConsistency(w: WireSystem, es: seq<WireEvent>, rid: u16)
    requires w.net == {} && Initial(System(w.sender, w.nodes, {})) && rid in Run(WireStep, w, es).nodes
    ensures var t := Run(WireStep, w, es); var node, log := t.nodes[rid], t.sender.log;
            && node.start <= node.r.last <= |log|
            && node.applied == log[node.start..node.r.last]
            && (node.high <= node.r.last ==> node.numbers == Fold({}, log[..node.r.last]))
  {
    var any := (w: WireSystem, e: WireEvent) => true;
    forall w, e | WireSafe(w) ensures WireSafe(WireStep(w, e)) {
      WireSafeStep(w, e);
    }
    assert Frames(w.net) == {};
    AlwaysTrue(WireStep, any, w, es);
    var safe := w => WireSafe(w);
    RunPreserves(WireStep, safe, any, w, es);
    CaughtUp(Abstract(Run(WireStep, w, es)), rid);
  }
}
