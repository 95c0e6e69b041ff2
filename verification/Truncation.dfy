/**
 What the sender believes about receivers, and why dropping history is safe.
 Two readings, told apart by `strict`: receivers that never fall back and are
 registered exactly where they stand, and receivers that may fall back as long
 as nothing beyond the older position was ever acknowledged.
 */
module Truncation {
  import opened Words
  import opened OpFrames
  import opened Operations
  import opened Runs
  import S = SenderModel
  import I = SenderInvariant
  import Scheduling
  import R = Receiver
  import opened Replication

  /**
   A slot's acknowledged position is not beyond its receiver's, and the log
   still holds what follows it; strictly, it is at most one behind.
   */
  predicate SlotTracks(s: System, slot: S.Slot, strict: bool) {
    slot.active && slot.rid in s.nodes ==>
      && slot.acked <= s.nodes[slot.rid].r.last && s.sender.oldest <= slot.acked + 1
      && (strict ==> s.nodes[slot.rid].r.last <= slot.acked + 1)
  }

  /** An ACK of receiver `rid` that the sender `cfg` would take, for an operation beyond `position`. */
  predicate AcksBeyond(cfg: S.Config, f: Frame, rid: u16, position: u32) {
    && f.payload.Ack? && f.header.sender == rid && f.header.receiver == cfg.id && f.payload.stream == cfg.stream
    && f.payload.ackId > position
  }

  /** No ACK is ahead of what its receiver applied; strictly, no DATA frame is ahead of what its receiver needs. */
  predicate FrameTracks(s: System, f: Frame, strict: bool) {
    && (f.header.sender in s.nodes ==>
          !AcksBeyond(s.sender.cfg, f, f.header.sender, s.nodes[f.header.sender].r.last))
    && (strict && f.payload.Data? && f.header.receiver in s.nodes ==>
          var opId, rid := f.payload.opId, f.header.receiver;
          opId <= s.nodes[rid].r.last + 1 &&
          forall i :: 0 <= i < |s.sender.slots| && s.sender.slots[i].active && s.sender.slots[i].rid == rid
                      ==> opId <= s.sender.slots[i].acked + 1)
  }

  predicate OwnIds(nodes: map<u16, Node>) {
    forall rid :: rid in nodes ==> nodes[rid].r.id == rid
  }

  ghost predicate Tracks(s: System, strict: bool) {
    && Safe(s)
    && OwnIds(s.nodes)
    && (forall i :: 0 <= i < |s.sender.slots| ==> SlotTracks(s, s.sender.slots[i], strict))
    && (forall f :: f in s.net ==> FrameTracks(s, f, strict))
  }

  /** A position that neither a slot nor an ACK under way goes beyond. */
  predicate Unacknowledged(s: System, rid: u16, position: u32) {
    && (forall i :: 0 <= i < |s.sender.slots| && s.sender.slots[i].active && s.sender.slots[i].rid == rid
                    ==> s.sender.slots[i].acked <= position)
    && forall f :: f in s.net ==> !AcksBeyond(s.sender.cfg, f, rid, position)
  }

  /** The position of receiver `rid`, or strictly nothing but that, is what the caller names. */
  predicate TrueTo(s: System, rid: u16, position: u32, strict: bool) {
    rid in s.nodes ==> position <= s.nodes[rid].r.last && (strict ==> position == s.nodes[rid].r.last)
  }

  /**
   Receivers are registered and reset where they stand, or loosely where they
   once stood, with what follows retained; they restart where they stood, or
   loosely at a position nothing beyond which was acknowledged.
   */
  predicate Disciplined(s: System, e: Event, strict: bool) {
    match e
    case Restart(rid, position) =>
      rid in s.nodes ==> position == s.nodes[rid].r.last || (!strict && Unacknowledged(s, rid, position))
    case Local(call) =>
      (match call
       case RegisterEvent(rid, acked) =>
         TrueTo(s, rid, acked, strict) && (rid in s.nodes ==> S.Reclaim(s.sender).oldest <= acked + 1)
       case ProgressEvent(rid, acked) =>
         TrueTo(s, rid, acked, strict) && (rid in s.nodes ==> s.sender.oldest <= acked + 1)
       case _ => true)
    case _ => true
  }

  predicate Strict(s: System, e: Event) {
    Disciplined(s, e, true)
  }

  predicate Loose(s: System, e: Event) {
    Disciplined(s, e, false)
  }

  lemma ReclaimKeepsNeeded(s: S.State, i: nat)
    requires i < |s.slots| && s.slots[i].active && s.oldest <= s.slots[i].acked + 1
    ensures S.Reclaim(s).oldest <= s.slots[i].acked + 1
  {
    S.FloorIsLowest(s.slots, Inc32(s.Latest()));
  }

  /** A sender step that keeps slots and raises `oldest` no further than any active slot needs. */
  predicate KeepsSlots(s: S.State, t: S.State) {
    && t.slots == s.slots && t.cfg == s.cfg
    && forall i :: 0 <= i < |s.slots| && s.slots[i].active && s.oldest <= s.slots[i].acked + 1 ==>
         t.oldest <= s.slots[i].acked + 1
  }

  lemma ReclaimKeepsSlots(s: S.State)
    ensures KeepsSlots(s, S.Reclaim(s))
  {
    forall i | 0 <= i < |s.slots| && s.slots[i].active && s.oldest <= s.slots[i].acked + 1
      ensures S.Reclaim(s).oldest <= s.slots[i].acked + 1
    {
      ReclaimKeepsNeeded(s, i);
    }
  }

  lemma TracksWhenSlotsKept(s: System, t: S.State, strict: bool)
    requires Tracks(s, strict) && KeepsSlots(s.sender, t) && Safe(s.(sender := t))
    ensures Tracks(s.(sender := t), strict)
  {
    forall i | 0 <= i < |t.slots| ensures SlotTracks(s.(sender := t), t.slots[i], strict) {
      assert SlotTracks(s, s.sender.slots[i], strict);
    }
    forall f | f in s.net ensures FrameTracks(s.(sender := t), f, strict) {
      assert FrameTracks(s, f, strict);
    }
  }

  /** Changing one slot to a tracking one at which no frame is ahead. */
  lemma TracksWithSlot(s: System, i: nat, slot: S.Slot, strict: bool)
    requires Tracks(s, strict) && i < |s.sender.slots| && SlotTracks(s, slot, strict)
    requires strict && slot.active && slot.rid in s.nodes ==>
               slot.acked == s.nodes[slot.rid].r.last
               || (s.sender.slots[i].active && slot.rid == s.sender.slots[i].rid && s.sender.slots[i].acked <= slot.acked)
    requires Safe(s.(sender := S.WithSlot(s.sender, i, slot)))
    ensures Tracks(s.(sender := S.WithSlot(s.sender, i, slot)), strict)
  {
    var t := s.(sender := S.WithSlot(s.sender, i, slot));
    forall j | 0 <= j < |t.sender.slots| ensures SlotTracks(t, t.sender.slots[j], strict) {
      assert SlotTracks(s, s.sender.slots[j], strict);
    }
    forall f | f in t.net ensures FrameTracks(t, f, strict) {
      assert FrameTracks(s, f, strict);
    }
  }

  lemma SafeSender(s: System, t: S.State)
    requires Safe(s) && I.Inv(t) && t.log == s.sender.log
    ensures Safe(s.(sender := t))
  {}

  lemma TracksReclaim(s: System, strict: bool)
    requires Tracks(s, strict)
    ensures Tracks(s.(sender := S.Reclaim(s.sender)), strict)
  {
    I.ReclaimInv(s.sender);
    SafeSender(s, S.Reclaim(s.sender));
    ReclaimKeepsSlots(s.sender);
    TracksWhenSlotsKept(s, S.Reclaim(s.sender), strict);
  }

  lemma EnqueueKeepsSlots(s: S.State, call: S.Event)
    requires call.EnqueueEvent? || call.ListsEvent?
    ensures KeepsSlots(s, S.Step(s, call))
  {
    ReclaimKeepsSlots(s);
    if call.ListsEvent? && S.Step(s, call) != s {
      var all := s.log + Ops(call.removes, call.adds);
      ReclaimKeepsSlots(s.(log := all[..|all| - 1]));
    }
  }

  lemma TracksEnqueue(s: System, call: S.Event, strict: bool)
    requires Tracks(s, strict) && Enabled(s, Local(call)) && (call.EnqueueEvent? || call.ListsEvent?)
    ensures Tracks(Step(s, Local(call)), strict)
  {
    SafeLocal(s, call);
    EnqueueKeepsSlots(s.sender, call);
    TracksWhenSlotsKept(s, S.Step(s.sender, call), strict);
  }

  lemma TracksRegister(s: System, rid: u16, acked: u32, strict: bool)
    requires Tracks(s, strict) && Disciplined(s, Local(S.RegisterEvent(rid, acked)), strict)
    ensures Tracks(s.(sender := S.Register(s.sender, rid, acked).0), strict)
  {
    TracksReclaim(s, strict);
    var r := S.Reclaim(s.sender);
    var i := S.FreeSlot(r.slots);
    I.RegisterInv(s.sender, rid, acked);
    SafeSender(s, S.Register(s.sender, rid, acked).0);
    if rid != 0 && S.FindSlot(r.slots, rid) == |r.slots| && i < |r.slots| {
      TracksWithSlot(s.(sender := r), i, r.slots[i].(active := true, rid := rid, acked := acked, exhausted := false),
          strict);
    }
  }

  lemma TracksProgress(s: System, rid: u16, acked: u32, strict: bool)
    requires Tracks(s, strict) && Disciplined(s, Local(S.ProgressEvent(rid, acked)), strict)
    ensures Tracks(s.(sender := S.SetProgress(s.sender, rid, acked).0), strict)
  {
    var i := S.FindSlot(s.sender.slots, rid);
    if i < |s.sender.slots| {
      ReplaceThenReclaim(s, i, S.Idle(s.sender.slots[i]).(acked := acked), strict);
    }
  }

  lemma TracksUnregister(s: System, rid: u16, strict: bool)
    requires Tracks(s, strict)
    ensures Tracks(s.(sender := S.Unregister(s.sender, rid).0), strict)
  {
    var i := S.FindSlot(s.sender.slots, rid);
    if i < |s.sender.slots| {
      ReplaceThenReclaim(s, i, S.Idle(s.sender.slots[i]).(active := false), strict);
    }
  }

  /** The common shape of the slot transitions: overwrite one slot with an idle one, then reclaim. */
  lemma ReplaceThenReclaim(s: System, i: nat, slot: S.Slot, strict: bool)
    requires Tracks(s, strict) && i < |s.sender.slots| && SlotTracks(s, slot, strict) && s.sender.slots[i].active
    requires slot.rid == s.sender.slots[i].rid && !slot.waiting && slot.inflight == 0 && slot.retries == 0 && !slot.exhausted
    requires strict && slot.active && slot.rid in s.nodes ==>
               slot.acked == s.nodes[slot.rid].r.last || s.sender.slots[i].acked <= slot.acked
    ensures Tracks(s.(sender := S.Reclaim(S.WithSlot(s.sender, i, slot))), strict)
  {
    assert I.SlotOk(s.sender, s.sender.slots[i]);
    I.WithSlotInv(s.sender, i, slot);
    SafeSender(s, S.WithSlot(s.sender, i, slot));
    TracksWithSlot(s, i, slot, strict);
    TracksReclaim(s.(sender := S.WithSlot(s.sender, i, slot)), strict);
  }

  /** Any frame leaves the sender tracking; an ACK is accepted only for what its receiver has applied. */
  lemma TracksRx(s: System, now: u64, f: Frame, strict: bool)
    requires Tracks(s, strict) && f in s.net
    ensures Tracks(s.(sender := S.HandleRx(s.sender, now, f).0), strict)
  {
    var i := S.Addressed(s.sender, f);
    if i < |s.sender.slots| {
      var slot := s.sender.slots[i];
      assert SlotTracks(s, slot, strict) && FrameTracks(s, f, strict) && I.SlotOk(s.sender, slot);
      match f.payload
      case Request(_, next) =>
        I.RxInv(s.sender, now, f);
        SafeSender(s, S.HandleRx(s.sender, now, f).0);
        if S.AcceptsRequest(s.sender, slot, next) {
          TracksWithSlot(s, i, slot.(due := now), strict);
        }
      case Ack(_, ackId) =>
        if S.AcceptsAck(slot, ackId) {
          ReplaceThenReclaim(s, i, S.Idle(slot).(acked := ackId), strict);
        }
      case Nack(_, _, _, expected) =>
        if S.AcceptsNack(s.sender, slot, expected) {
          ReplaceThenReclaim(s, i, S.Idle(slot).(due := now), strict);
        }
      case Beacon(_, _) =>
      case Data(_, _, _, _) =>
    }
  }

  /** `t` has the slots of `s` as far as receivers and acknowledged positions go, and has only reclaimed. */
  predicate SamePositions(s: S.State, t: S.State) {
    && |t.slots| == |s.slots| && t.cfg == s.cfg && t.oldest == S.Reclaim(s).oldest
    && forall j :: 0 <= j < |s.slots| ==>
         t.slots[j].active == s.slots[j].active && t.slots[j].rid == s.slots[j].rid && t.slots[j].acked == s.slots[j].acked
  }

  lemma PositionsKept(s: System, t: System, strict: bool)
    requires Tracks(s, strict) && SamePositions(s.sender, t.sender) && t.nodes == s.nodes
    ensures forall i :: 0 <= i < |t.sender.slots| ==> SlotTracks(t, t.sender.slots[i], strict)
    ensures forall f :: f in s.net ==> FrameTracks(t, f, strict)
  {
    ReclaimKeepsSlots(s.sender);
    forall i | 0 <= i < |t.sender.slots| ensures SlotTracks(t, t.sender.slots[i], strict) {
      assert SlotTracks(s, s.sender.slots[i], strict);
    }
    forall f | f in s.net ensures FrameTracks(t, f, strict) {
      assert FrameTracks(s, f, strict);
    }
  }

  lemma TracksPoll(s: System, now: u64, cap: nat, strict: bool)
    requires Tracks(s, strict)
    ensures Tracks(Step(s, Local(S.PollEvent(now, cap))), strict)
  {
    var e, t := S.Poll(s.sender, now, cap), Step(s, Local(S.PollEvent(now, cap)));
    SafeLocal(s, S.PollEvent(now, cap));
    PollKeepsPositions(s.sender, now, cap);
    PositionsKept(s, t, strict);
    if e.frame.Some? {
      var i := NextOperationSent(s.sender, now, cap);
      PolledFrameTracks(s, t, i, e.frame.value, strict);
    }
  }

  lemma NextOperationSent(s: S.State, now: u64, cap: nat) returns (i: nat)
    requires I.Inv(s) && S.Poll(s, now, cap).frame.Some?
    ensures var f := S.Poll(s, now, cap).frame.value;
            i < |s.slots| && s.slots[i].active &&
            f.payload.Data? && f.header.receiver == s.slots[i].rid && f.payload.opId == s.slots[i].acked + 1
  {
    i := Scheduling.PollServesFirstReady(s, now, cap);
  }

  lemma PolledFrameTracks(s: System, t: System, i: nat, f: Frame, strict: bool)
    requires Tracks(s, strict) && i < |s.sender.slots| && s.sender.slots[i].active
    requires f.payload.Data? && f.header.receiver == s.sender.slots[i].rid && f.payload.opId == s.sender.slots[i].acked + 1
    requires t.nodes == s.nodes && SamePositions(s.sender, t.sender)
    ensures FrameTracks(t, f, strict)
  {
    assert SlotTracks(s, s.sender.slots[i], strict);
  }

  /** A poll changes no slot's receiver or acknowledged position. */
  lemma PollKeepsPositions(s: S.State, now: u64, cap: nat)
    requires I.Inv(s)
    ensures SamePositions(s, S.Poll(s, now, cap).state)
  {
    if s.slots != [] {
      var r, n := S.Reclaim(s), |s.slots|;
      var k := S.FirstReady(r, S.Start(r), 0, now);
      forall j | 0 <= j < n ensures S.Swept(r, S.Start(r), k, now).slots[j] == s.slots[j]
                                    || S.Swept(r, S.Start(r), k, now).slots[j] == S.Expired(s.slots[j])
      {
        S.SweptAt(r, S.Start(r), k, now, j);
      }
      if k < n {
        S.SweptAt(r, S.Start(r), k, now, S.Ahead(n, S.Start(r), k));
        ServeKeepsPositions(S.Swept(r, S.Start(r), k, now), S.Ahead(n, S.Start(r), k), now, cap);
      }
    }
  }

  lemma ServeKeepsPositions(s: S.State, i: nat, now: u64, cap: nat)
    requires i < |s.slots| && S.Ready(s, i, now)
    ensures var t := S.Serve(s, i, now, cap).state;
            && |t.slots| == |s.slots| && t.oldest == s.oldest && t.cfg == s.cfg
            && forall j :: 0 <= j < |s.slots| ==>
                 t.slots[j].active == s.slots[j].active && t.slots[j].rid == s.slots[j].rid
                     && t.slots[j].acked == s.slots[j].acked
  {}

  /** A receiver applies only the operation its slot is waiting to hear about. */
  lemma TracksDataTo(s: System, rid: u16, f: Frame, cap: nat, callback: R.Callback, strict: bool)
    requires Tracks(s, strict) && Enabled(s, DataTo(rid, f, cap, callback))
    ensures Tracks(Step(s, DataTo(rid, f, cap, callback)), strict)
  {
    var node := s.nodes[rid];
    var e := R.HandleData(node.r, f, cap, callback);
    R.ApplyIsAtomic(node.r, f, cap, callback);
    R.AnswersTellPosition(node.r, f, cap, callback);
    SafeDataTo(s, rid, f, cap, callback);
    assert FrameTracks(s, f, strict);
    TracksNode(s, rid, AfterData(node, f, cap, callback), e.reply, strict);
  }

  lemma TracksNode(s: System, rid: u16, node: Node, reply: Option<Frame>, strict: bool)
    requires Tracks(s, strict) && rid in s.nodes && node.r.id == rid
    requires s.nodes[rid].r.last <= node.r.last
    requires strict && node.r.last > s.nodes[rid].r.last ==>
               forall i :: 0 <= i < |s.sender.slots| && s.sender.slots[i].active && s.sender.slots[i].rid == rid
                           ==> node.r.last <= s.sender.slots[i].acked + 1
    requires reply.Some? ==>
               !reply.value.payload.Data? && reply.value.header.sender == rid &&
               (reply.value.payload.Ack? ==> reply.value.payload.ackId <= node.r.last)
    requires Safe(s.(nodes := s.nodes[rid := node], net := Sent(s.net, reply)))
    ensures Tracks(s.(nodes := s.nodes[rid := node], net := Sent(s.net, reply)), strict)
  {
    var t := s.(nodes := s.nodes[rid := node], net := Sent(s.net, reply));
    forall i | 0 <= i < |t.sender.slots| ensures SlotTracks(t, t.sender.slots[i], strict) {
      assert SlotTracks(s, s.sender.slots[i], strict);
    }
    forall f | f in s.net ensures FrameTracks(t, f, strict) {
      assert FrameTracks(s, f, strict);
    }
  }

  lemma TracksBeaconTo(s: System, rid: u16, f: Frame, cap: nat, strict: bool)
    requires Tracks(s, strict) && Enabled(s, BeaconTo(rid, f, cap))
    ensures Tracks(Step(s, BeaconTo(rid, f, cap)), strict)
  {
    var a := R.HandleBeacon(s.nodes[rid].r, f, cap);
    SafeBeaconTo(s, rid, f, cap);
    TracksNode(s, rid, s.nodes[rid].(r := a.state), a.reply, strict);
  }

  lemma TracksBeacon(s: System, cap: nat, strict: bool)
    requires Tracks(s, strict)
    ensures Tracks(Step(s, SendBeacon(cap)), strict)
  {
    var t := Step(s, SendBeacon(cap));
    forall i | 0 <= i < |t.sender.slots| ensures SlotTracks(t, t.sender.slots[i], strict) {
      assert SlotTracks(s, s.sender.slots[i], strict);
    }
    forall f | f in s.net ensures FrameTracks(t, f, strict) {
      assert FrameTracks(s, f, strict);
    }
  }

  lemma TracksLocal(s: System, call: S.Event, strict: bool)
    requires Tracks(s, strict) && Enabled(s, Local(call)) && Disciplined(s, Local(call), strict)
    ensures Tracks(Step(s, Local(call)), strict)
  {
    match call
    case EnqueueEvent(_) => TracksEnqueue(s, call, strict);
    case ListsEvent(_, _) => TracksEnqueue(s, call, strict);
    case RegisterEvent(rid, acked) => TracksRegister(s, rid, acked, strict);
    case ProgressEvent(rid, acked) => TracksProgress(s, rid, acked, strict);
    case UnregisterEvent(rid) => TracksUnregister(s, rid, strict);
    case PollEvent(now, cap) => TracksPoll(s, now, cap, strict);
  }

  /** Falling back no further than what was acknowledged. */
  lemma TracksFallBack(s: System, rid: u16, position: u32)
    requires Tracks(s, false) && rid in s.nodes && position <= s.nodes[rid].r.last && Unacknowledged(s, rid, position)
    ensures Tracks(Step(s, Restart(rid, position)), false)
  {
    var t := Step(s, Restart(rid, position));
    SafeRestart(s, rid, position);
    forall i | 0 <= i < |t.sender.slots| ensures SlotTracks(t, t.sender.slots[i], false) {
      assert SlotTracks(s, s.sender.slots[i], false);
    }
    forall f | f in t.net ensures FrameTracks(t, f, false) {
      assert FrameTracks(s, f, false);
    }
  }

  lemma TracksStep(s: System, e: Event, strict: bool)
    requires Tracks(s, strict) && Disciplined(s, e, strict)
    ensures Tracks(Step(s, e), strict)
  {
    if Enabled(s, e) {
      match e
      case Local(call) => TracksLocal(s, call, strict);
      case SendBeacon(cap) => TracksBeacon(s, cap, strict);
      case ToSender(f, now) => TracksRx(s, now, f, strict);
      case DataTo(rid, f, cap, callback) => TracksDataTo(s, rid, f, cap, callback, strict);
      case BeaconTo(rid, f, cap) => TracksBeaconTo(s, rid, f, cap, strict);
      case Restart(rid, position) =>
        SafeRestart(s, rid, position);
        if position == s.nodes[rid].r.last {
          TracksNode(s, rid, AfterRestart(s.nodes[rid], position), None, strict);
        } else {
          TracksFallBack(s, rid, position);
        }
    }
  }

  ghost predicate NoRegistrations(s: System) {
    Initial(s) && OwnIds(s.nodes) && forall j :: 0 <= j < |s.sender.slots| ==> !s.sender.slots[j].active
  }

  lemma RunTracks(s: System, es: seq<Event>, ok: (System, Event) -> bool, strict: bool)
    requires Tracks(s, strict) && Always(Step, ok, s, es)
    requires forall s, e :: ok(s, e) ==> Disciplined(s, e, strict)
    ensures Tracks(Run(Step, s, es), strict)
  {
    forall s, e | Tracks(s, strict) && ok(s, e) ensures Tracks(Step(s, e), strict) {
      TracksStep(s, e, strict);
    }
    var tracks := s => Tracks(s, strict);
    RunPreserves(Step, tracks, ok, s, es);
  }

  /** What a tracked slot says about its receiver and about the history. */
  predicate HistoryServes(t: System, slot: S.Slot, strict: bool) {
    slot.active && slot.rid in t.nodes ==>
      var last := t.nodes[slot.rid].r.last;
      && slot.acked <= last && (strict ==> last <= slot.acked + 1)
      && t.sender.oldest - 1 <= last
      && (last < t.sender.Latest() ==> S.FindOp(t.sender, last + 1) == Some(t.sender.log[last]))
  }

  lemma TracksHistory(t: System, i: nat, strict: bool)
    requires Tracks(t, strict) && i < |t.sender.slots|
    ensures HistoryServes(t, t.sender.slots[i], strict)
  {
    assert SlotTracks(t, t.sender.slots[i], strict);
  }

  lemma NothingTracked(s: System, strict: bool)
    requires NoRegistrations(s)
    ensures Tracks(s, strict)
  {}

  /**
   Truncation safety, in every state a strictly disciplined run reaches from
   an initial one without registrations: an active slot's acknowledged
   position is its receiver's position or one less, every operation dropped
   from the history has been applied by every registered receiver, and the
   operation a receiver needs next is still in the ring.
   */
  lemma TruncationSafe(s: System, es: seq<Event>, i: nat)
    requires NoRegistrations(s) && Always(Step, Strict, s, es)
    requires i < |Run(Step, s, es).sender.slots|
    ensures HistoryServes(Run(Step, s, es), Run(Step, s, es).sender.slots[i], true)
  {
    NothingTracked(s, true);
    RunTracks(s, es, Strict, true);
    TracksHistory(Run(Step, s, es), i, true);
  }

  /**
   The history serves every registered receiver even when receivers fall back
   and are registered too low, as long as no one falls back behind what was
   acknowledged; only the bound of one operation between the two is lost.
   */
  lemma LooselySafe(s: System, es: seq<Event>, i: nat)
    requires NoRegistrations(s) && Always(Step, Loose, s, es)
    requires i < |Run(Step, s, es).sender.slots|
    ensures HistoryServes(Run(Step, s, es), Run(Step, s, es).sender.slots[i], false)
  {
    NothingTracked(s, false);
    RunTracks(s, es, Loose, false);
    TracksHistory(Run(Step, s, es), i, false);
  }

  /**
   Why positions should not be named too low: a receiver answers a repeated
   operation with its own position, and the sender takes that answer exactly
   when the operation is the receiver's last. A slot further behind is never
   moved on by such answers.
   */
  lemma RepeatAnswered(s: S.State, i: nat, r: R.State, f: Frame, cap: nat, callback: R.Callback, now: u64)
    requires I.Inv(s) && i < |s.slots| && s.slots[i].active && s.slots[i].waiting && cap >= FrameLength(ACK) && r.id != 0
    requires r.id == s.slots[i].rid && r.stream == s.cfg.stream && (r.expectedSender == 0 || r.expectedSender == s.cfg.id)
    requires Legal(f) && f.payload.Data? && f.header.sender == s.cfg.id && f.header.receiver == r.id
    requires f.payload.stream == s.cfg.stream && f.payload.opId == s.slots[i].inflight <= r.last
    ensures var e := R.HandleData(r, f, cap, callback);
            && !e.ran && e.state.last == r.last && e.reply.Some?
            && var (t, ok) := S.HandleRx(s, now, e.reply.value);
               (ok <==> s.slots[i].inflight == r.last) && (!ok ==> t == s) && (ok ==>
                   i < |t.slots| && t.slots[i].acked == r.last)
  {
    S.FindSlotFirst(s.slots, r.id);
    assert S.FindSlot(s.slots, r.id) == i;
  }
}
