/** The lossless loop of poll, apply and acknowledge brings every receiver to the end of the log. */
module Convergence {
  import opened Words
  import opened Framing
  import opened OpFrames
  import opened Operations
  import S = SenderModel
  import I = SenderInvariant
  import Scheduling
  import R = Receiver
  import opened Replication

  /** An idle registered slot whose receiver stands where the sender thinks and listens to it. */
  predicate SlotSynced(s: System, slot: S.Slot) {
    slot.active ==>
      && !slot.waiting && !slot.exhausted
      && slot.rid in s.nodes
      && var r := s.nodes[slot.rid].r;
         && r.id == slot.rid && r.stream == s.sender.cfg.stream
         && (r.expectedSender == 0 || r.expectedSender == s.sender.cfg.id)
         && r.last == slot.acked && s.sender.oldest <= slot.acked + 1
  }

  ghost predicate Synced(s: System) {
    && Safe(s)
    && s.sender.cfg.id != 0 && s.sender.cfg.stream != 0
    && forall i :: 0 <= i < |s.sender.slots| ==> SlotSynced(s, s.sender.slots[i])
  }

  function SlotLag(latest: u32, slot: S.Slot): nat {
    if slot.active && slot.acked < latest then latest - slot.acked else 0
  }

  function SlotsLag(latest: u32, slots: seq<S.Slot>): nat {
    if slots == [] then 0 else SlotsLag(latest, slots[..|slots| - 1]) + SlotLag(latest, slots[|slots| - 1])
  }

  /** Operations the registered receivers still lack, all told. */
  function Lag(s: System): nat {
    SlotsLag(s.sender.Latest(), s.sender.slots)
  }

  lemma {:induction false} LagOfUpdate(latest: u32, slots: seq<S.Slot>, i: nat, slot: S.Slot)
    requires i < |slots|
    ensures SlotsLag(latest, slots[i := slot]) == SlotsLag(latest, slots) - SlotLag(latest, slots[i]) + SlotLag(latest, slot)
  {
    var n := |slots| - 1;
    if i < n {
      LagOfUpdate(latest, slots[..n], i, slot);
      assert slots[i := slot][..n] == slots[..n][i := slot];
    } else {
      assert slots[i := slot][..n] == slots[..n];
    }
  }

  /** The lag is zero exactly when no registered receiver is behind. */
  lemma {:induction false} LagZero(latest: u32, slots: seq<S.Slot>)
    requires forall i :: 0 <= i < |slots| && slots[i].active ==> slots[i].acked <= latest
    ensures SlotsLag(latest, slots) == 0 <==> forall i :: 0 <= i < |slots| && slots[i].active ==> slots[i].acked == latest
  {
    if slots != [] {
      var n := |slots| - 1;
      LagZero(latest, slots[..n]);
      assert forall i :: 0 <= i < n ==> slots[i] == slots[..n][i];
    }
  }

  lemma SyncedPositions(s: System)
    requires Synced(s)
    ensures forall i :: 0 <= i < |s.sender.slots| && s.sender.slots[i].active ==>
            s.sender.slots[i].acked <= s.sender.Latest()
  {
    forall i | 0 <= i < |s.sender.slots| && s.sender.slots[i].active ensures s.sender.slots[i].acked <= s.sender.Latest() {
      assert SlotSynced(s, s.sender.slots[i]);
      assert NodeOk(s.sender.log, s.nodes[s.sender.slots[i].rid]);
    }
  }

  // ---------- One round ----------

  /** Poll, hand the frame to its receiver, hand the answer back. */
  function Round(s: System, now: u64, cap: nat): System {
    var polled := Step(s, Local(S.PollEvent(now, cap)));
    match S.Poll(s.sender, now, cap).frame
    case None => polled
    case Some(f) => Exchange(polled, f, now, cap, R.Succeeds)
  }

  /** The frame reaches its receiver and the answer the sender. */
  function Exchange(s: System, f: Frame, now: u64, cap: nat, callback: R.Callback): System {
    var rid := f.header.receiver;
    if !Enabled(s, DataTo(rid, f, cap, callback)) then s
    else
      var applied := Step(s, DataTo(rid, f, cap, callback));
      match R.HandleData(s.nodes[rid].r, f, cap, callback).reply
      case None => applied
      case Some(a) => Step(applied, ToSender(a, now))
  }

  lemma NothingExpires(s: System, k: nat, now: u64, i: nat)
    requires Synced(s) && i < |s.sender.slots| && k <= |s.sender.slots|
    ensures S.Swept(S.Reclaim(s.sender), S.Start(s.sender), k, now).slots[i] == s.sender.slots[i]
  {
    S.SweptAt(S.Reclaim(s.sender), S.Start(s.sender), k, now, i);
    assert SlotSynced(s, s.sender.slots[i]);
  }

  lemma NothingSwept(s: System, k: nat, now: u64)
    requires Synced(s) && s.sender.slots != [] && k <= |s.sender.slots|
    ensures S.SweptSlots(S.Reclaim(s.sender), S.Start(s.sender), k, now) == s.sender.slots
  {
    forall i | 0 <= i < |s.sender.slots|
      ensures S.SweptSlots(S.Reclaim(s.sender), S.Start(s.sender), k, now)[i] == s.sender.slots[i]
    {
      NothingExpires(s, k, now, i);
    }
  }

  lemma SyncedPollSends(s: System, now: u64, cap: nat)
    requires Synced(s) && Lag(s) > 0 && cap >= FrameLength(DATA) && s.sender.seqNo < MAX_U16
    ensures S.Poll(s.sender, now, cap).frame.Some?
  {
    SyncedPositions(s);
    LagZero(s.sender.Latest(), s.sender.slots);
    var j :| 0 <= j < |s.sender.slots| && s.sender.slots[j].active && s.sender.slots[j].acked != s.sender.Latest();
    assert SlotSynced(s, s.sender.slots[j]);
    assert S.Ready(s.sender, j, now);
    Scheduling.PollSendsIffReady(s.sender, now, cap);
  }

  /** Slot `i` of `s` was sent its next operation in `p`. */
  predicate SentTo(s: S.State, p: S.State, i: nat, f: Frame) {
    && i < |s.slots| == |p.slots| && s.slots[i].active && s.slots[i].acked < s.Latest()
    && f == S.DataFrame(s, s.slots[i].rid, s.slots[i].acked + 1, s.log[s.slots[i].acked])
    && p.slots[i].(due := s.slots[i].due) == s.slots[i].(waiting := true, inflight := s.slots[i].acked + 1, retries := 0)
    && p.seqNo == s.seqNo + 1
    && p == S.Reclaim(s).(seqNo := p.seqNo, cursor := p.cursor, slots := s.slots[i := p.slots[i]])
  }

  /** While some receiver lags, a poll sends it its next operation. */
  lemma SyncedPoll(s: System, now: u64, cap: nat) returns (i: nat)
    requires Synced(s) && Lag(s) > 0 && cap >= FrameLength(DATA) && s.sender.seqNo < MAX_U16
    ensures var e := S.Poll(s.sender, now, cap); e.frame.Some? && SentTo(s.sender, e.state, i, e.frame.value)
  {
    SyncedPollSends(s, now, cap);
    i := Scheduling.PollServesFirstReady(s.sender, now, cap);
    assert SlotSynced(s, s.sender.slots[i]);
    NothingSwept(s, S.Distance(|s.sender.slots|, S.Start(s.sender), i), now);
  }

  /** The receiver of that frame applies it and acknowledges it. */
  lemma SyncedApply(s: System, node: Node, f: Frame, cap: nat)
    requires f.payload.Data? && Legal(f) && cap >= FrameLength(DATA)
    requires f.header.receiver == node.r.id && f.payload.stream == node.r.stream && f.payload.opId == node.r.last + 1
    requires node.r.expectedSender == 0 || node.r.expectedSender == f.header.sender
    ensures var e := R.HandleData(node.r, f, cap, R.Succeeds);
            && e.state == node.r.(last := node.r.last + 1, seqNo := Inc16(node.r.seqNo))
            && e.reply == Some(Frame(Header(node.r.id, f.header.sender, node.r.seqNo), Ack(node.r.stream, node.r.last + 1)))
            && AfterData(node, f, cap, R.Succeeds).r == e.state
            && AfterData(node, f, cap, R.Succeeds).high == node.high
  {}

  /** The sender accepts that acknowledgement. */
  lemma SyncedAck(s: S.State, i: nat, now: u64, a: Frame)
    requires I.Inv(s) && i < |s.slots| && s.slots[i].active && s.slots[i].waiting
    requires a.payload.Ack? && a.header.sender == s.slots[i].rid && a.header.receiver == s.cfg.id
    requires a.payload.stream == s.cfg.stream && a.payload.ackId == s.slots[i].acked + 1
    ensures S.HandleRx(s, now, a).0 == S.Reclaim(S.WithSlot(s, i, S.Idle(s.slots[i]).(acked := s.slots[i].acked + 1)))
  {
    I.FindsSlot(s, i);
    assert I.SlotOk(s, s.slots[i]);
  }

  /** From `s` to `t` exactly slot `i` and its receiver moved on, by one operation. */
  predicate Moved(s: System, t: System, i: nat) {
    && i < |s.sender.slots| == |t.sender.slots| && s.sender.slots[i].active && s.sender.slots[i].acked < s.sender.Latest()
    && t.sender.log == s.sender.log && t.sender.cfg == s.sender.cfg
    && t.sender.slots == s.sender.slots[i := t.sender.slots[i]]
    && t.sender.slots[i].(due := s.sender.slots[i].due) == s.sender.slots[i].(acked := s.sender.slots[i].acked + 1)
    && var rid := s.sender.slots[i].rid;
       && rid in s.nodes && rid in t.nodes && t.nodes == s.nodes[rid := t.nodes[rid]]
       && s.nodes[rid].r.last < MAX_U32
       && t.nodes[rid].r.(seqNo := 0) == s.nodes[rid].r.(seqNo := 0, last := s.nodes[rid].r.last + 1)
  }

  /** The link of `t` carries an ACK for the operation after the acknowledged position of slot `i` in `s`. */
  ghost predicate AckOut(s: System, t: System, i: nat)
    requires i < |s.sender.slots|
  {
    exists a :: a in t.net && a.header.sender == s.sender.slots[i].rid && a.header.receiver == s.sender.cfg.id &&
                a.payload.Ack? && a.payload.stream == s.sender.cfg.stream
                    && a.payload.ackId as int == s.sender.slots[i].acked + 1
  }

  /** The exchange after a poll that served slot `i`. */
  lemma ExchangeEffect(s: System, i: nat, f: Frame, now: u64, cap: nat)
    requires Safe(s) && i < |s.sender.slots| && s.sender.slots[i].active && s.sender.slots[i].waiting
    requires f in s.net && Legal(f) && f.payload.Data? && cap >= FrameLength(DATA)
    requires f.header == Header(s.sender.cfg.id, s.sender.slots[i].rid, f.header.seqNo)
    requires f.payload.stream == s.sender.cfg.stream && f.payload.opId == s.sender.slots[i].acked + 1
    requires s.sender.slots[i].rid in s.nodes
    requires var r := s.nodes[s.sender.slots[i].rid].r;
             r.id == s.sender.slots[i].rid && r.stream == s.sender.cfg.stream && r.last == s.sender.slots[i].acked &&
             (r.expectedSender == 0 || r.expectedSender == s.sender.cfg.id)
    ensures var t, rid := Exchange(s, f, now, cap, R.Succeeds), s.sender.slots[i].rid;
            && Safe(t)
            && t.sender == S.Reclaim(S.WithSlot(s.sender, i,
               S.Idle(s.sender.slots[i]).(acked := s.sender.slots[i].acked + 1)))
            && t.nodes == s.nodes[rid := AfterData(s.nodes[rid], f, cap, R.Succeeds)]
            && AckOut(s, t, i)
  {
    var rid := s.sender.slots[i].rid;
    SyncedApply(s, s.nodes[rid], f, cap);
    SafeDataTo(s, rid, f, cap, R.Succeeds);
    var a := Answered(s, rid, f, now, cap);
    SyncedAck(s.sender, i, now, a);
    SafeToSender(Step(s, DataTo(rid, f, cap, R.Succeeds)), a, now);
  }

  lemma Answered(s: System, rid: u16, f: Frame, now: u64, cap: nat) returns (a: Frame)
    requires Enabled(s, DataTo(rid, f, cap, R.Succeeds)) && f.header.receiver == rid
    requires R.HandleData(s.nodes[rid].r, f, cap, R.Succeeds).reply.Some?
    ensures R.HandleData(s.nodes[rid].r, f, cap, R.Succeeds).reply == Some(a)
    ensures var t := Step(s, DataTo(rid, f, cap, R.Succeeds));
            && t == s.(nodes := s.nodes[rid := AfterData(s.nodes[rid], f, cap, R.Succeeds)], net := s.net + {a})
            && Exchange(s, f, now, cap, R.Succeeds) == t.(sender := S.HandleRx(s.sender, now, a).0)
            && Exchange(s, f, now, cap, R.Succeeds) == Step(t, ToSender(a, now))
  {
    a := R.HandleData(s.nodes[rid].r, f, cap, R.Succeeds).reply.value;
  }

  /** A whole round moves one lagging receiver on by one operation and changes nothing else that matters. */
  lemma RoundMoves(s: System, now: u64, cap: nat) returns (i: nat)
    requires Synced(s) && Lag(s) > 0 && cap >= FrameLength(DATA) && s.sender.seqNo < MAX_U16
    ensures var t := Round(s, now, cap);
            Safe(t) && Moved(s, t, i) && t.sender.seqNo == s.sender.seqNo + 1 && Needed(s, t, i) && AckOut(s, t, i)
  {
    i := SyncedPoll(s, now, cap);
    var e := S.Poll(s.sender, now, cap);
    SafeLocal(s, S.PollEvent(now, cap));
    ExchangeMoves(s, Step(s, Local(S.PollEvent(now, cap))), i, e.frame.value, now, cap);
  }

  lemma ExchangeMoves(s: System, p: System, i: nat, f: Frame, now: u64, cap: nat)
    requires Synced(s) && Safe(p) && p.nodes == s.nodes && f in p.net && cap >= FrameLength(DATA)
    requires SentTo(s.sender, p.sender, i, f)
    ensures var t := Exchange(p, f, now, cap, R.Succeeds);
            Safe(t) && Moved(s, t, i) && t.sender.seqNo == s.sender.seqNo + 1 && Needed(s, t, i) && AckOut(s, t, i)
  {
    var slot := s.sender.slots[i];
    assert SlotSynced(s, slot) && I.SlotOk(s.sender, slot);
    assert s.sender.log[slot.acked] in s.sender.log;
    ExchangeEffect(p, i, f, now, cap);
    SyncedApply(s, s.nodes[slot.rid], f, cap);
  }

  /** The history after a round: what was retained before it, less what no active slot needs any more. */
  ghost predicate Needed(s: System, t: System, i: nat) {
    exists p: S.State ::
      && i < |p.slots| == |s.sender.slots| && p.oldest == S.Reclaim(s.sender).oldest
         && p.slots == s.sender.slots[i := p.slots[i]]
      && i < |t.sender.slots| && t.sender == S.Reclaim(S.WithSlot(p, i, t.sender.slots[i]))
  }

  lemma RoundOldest(s: S.State, i: nat, slot: S.Slot, j: nat)
    requires i < |s.slots| && j < |s.slots| && S.WithSlot(s, i, slot).slots[j].active
    requires s.oldest <= S.WithSlot(s, i, slot).slots[j].acked + 1
    ensures S.Reclaim(S.WithSlot(s, i, slot)).oldest <= S.WithSlot(s, i, slot).slots[j].acked + 1
  {
    S.FloorIsLowest(S.WithSlot(s, i, slot).slots, Inc32(s.Latest()));
  }

  lemma MovedSlotSynced(s: System, t: System, p: S.State, i: nat, j: nat)
    requires Synced(s) && Safe(t) && Moved(s, t, i) && j < |t.sender.slots|
    requires i < |p.slots| == |s.sender.slots| && p.oldest == S.Reclaim(s.sender).oldest
    requires p.slots == s.sender.slots[i := p.slots[i]] && t.sender == S.Reclaim(S.WithSlot(p, i, t.sender.slots[i]))
    ensures SlotSynced(t, t.sender.slots[j])
  {
    var slot := s.sender.slots[j];
    assert SlotSynced(s, slot);
    if slot.active {
      assert NodeOk(s.sender.log, s.nodes[slot.rid]);
      S.FloorIsLowest(s.sender.slots, Inc32(s.sender.Latest()));
      assert S.Reclaim(s.sender).oldest <= slot.acked + 1;
      RoundOldest(p, i, t.sender.slots[i], j);
    }
  }

  lemma MovedKeepsSync(s: System, t: System, i: nat)
    requires Synced(s) && Safe(t) && Moved(s, t, i) && Needed(s, t, i)
    ensures Synced(t)
  {
    var p: S.State :|
      && i < |p.slots| == |s.sender.slots| && p.oldest == S.Reclaim(s.sender).oldest
         && p.slots == s.sender.slots[i := p.slots[i]]
      && t.sender == S.Reclaim(S.WithSlot(p, i, t.sender.slots[i]));
    forall j | 0 <= j < |t.sender.slots| ensures SlotSynced(t, t.sender.slots[j]) {
      MovedSlotSynced(s, t, p, i, j);
    }
  }

  /** What a round leaves alone. */
  predicate SameCast(s: System, t: System) {
    && t.sender.log == s.sender.log && t.sender.cfg == s.sender.cfg && t.nodes.Keys == s.nodes.Keys
    && |t.sender.slots| == |s.sender.slots|
    && (forall j {:trigger t.sender.slots[j]} :: 0 <= j < |s.sender.slots| ==>
          t.sender.slots[j].active == s.sender.slots[j].active && t.sender.slots[j].rid == s.sender.slots[j].rid)
  }

  /** Each round lowers the lag by exactly one and keeps everything in step. */
  lemma RoundLowersLag(s: System, now: u64, cap: nat)
    requires Synced(s) && Lag(s) > 0 && cap >= FrameLength(DATA) && s.sender.seqNo < MAX_U16
    ensures var t := Round(s, now, cap);
            Synced(t) && Lag(t) == Lag(s) - 1 && t.sender.seqNo == s.sender.seqNo + 1 && SameCast(s, t)
  {
    var i := RoundMoves(s, now, cap);
    MovedLag(s, Round(s, now, cap), i);
    MovedKeepsSync(s, Round(s, now, cap), i);
  }

  lemma MovedLag(s: System, t: System, i: nat)
    requires Moved(s, t, i)
    ensures Lag(t) == Lag(s) - 1 && SameCast(s, t)
  {
    LagOfUpdate(s.sender.Latest(), s.sender.slots, i, t.sender.slots[i]);
  }

  // ---------- The whole loop ----------

  function Rounds(s: System, times: seq<u64>, cap: nat): System
    decreases |times|
  {
    if times == [] then s else Rounds(Round(s, times[0], cap), times[1..], cap)
  }

  lemma RoundKeepsNet(s: System, now: u64, cap: nat)
    ensures s.net <= Round(s, now, cap).net
  {}

  lemma {:induction false} RoundsLowerLag(s: System, times: seq<u64>, cap: nat)
    requires Synced(s) && cap >= FrameLength(DATA) && |times| <= Lag(s) && s.sender.seqNo + |times| <= MAX_U16
    ensures var t := Rounds(s, times, cap);
            && Synced(t) && Lag(t) == Lag(s) - |times| && SameCast(s, t)
            && t.sender.seqNo == s.sender.seqNo + |times| && s.net <= t.net
    decreases |times|
  {
    if times != [] {
      RoundLowersLag(s, times[0], cap);
      RoundKeepsNet(s, times[0], cap);
      RoundsLowerLag(Round(s, times[0], cap), times[1..], cap);
    }
  }

  /** Once every active slot is acknowledged to the end of the log, reclaiming leaves the ring empty. */
  lemma ReclaimEmpties(w: S.State, t: S.State)
    requires I.Inv(t) && t == S.Reclaim(w) && t.Latest() < MAX_U32
    requires forall i :: 0 <= i < |t.slots| && t.slots[i].active ==> t.slots[i].acked == t.Latest()
    ensures t.Retained() == 0
  {
    S.FloorIsLowest(w.slots, Inc32(w.Latest()));
  }

  /** The acknowledgement of the last operation lacking empties the ring. */
  lemma LastRoundEmpties(s: System, now: u64, cap: nat)
    requires Synced(s) && Lag(s) == 1 && cap >= FrameLength(DATA) && s.sender.seqNo < MAX_U16 && s.sender.Latest() < MAX_U32
    ensures Round(s, now, cap).sender.Retained() == 0
  {
    var t := Round(s, now, cap);
    var i := RoundMoves(s, now, cap);
    RoundLowersLag(s, now, cap);
    SyncedPositions(t);
    LagZero(t.sender.Latest(), t.sender.slots);
    var p: S.State :|
      && i < |p.slots| == |s.sender.slots| && p.oldest == S.Reclaim(s.sender).oldest
         && p.slots == s.sender.slots[i := p.slots[i]]
      && t.sender == S.Reclaim(S.WithSlot(p, i, t.sender.slots[i]));
    ReclaimEmpties(S.WithSlot(p, i, t.sender.slots[i]), t.sender);
  }

  lemma {:induction false} RoundsEmptyRing(s: System, times: seq<u64>, cap: nat)
    requires Synced(s) && cap >= FrameLength(DATA) && |times| == Lag(s) > 0 && s.sender.seqNo + |times| <= MAX_U16
    requires s.sender.Latest() < MAX_U32
    ensures Rounds(s, times, cap).sender.Retained() == 0
    decreases |times|
  {
    if |times| == 1 {
      LastRoundEmpties(s, times[0], cap);
      assert Rounds(Round(s, times[0], cap), times[1..], cap) == Round(s, times[0], cap);
    } else {
      RoundLowersLag(s, times[0], cap);
      RoundsEmptyRing(Round(s, times[0], cap), times[1..], cap);
    }
  }

  /**
   The loop converges after exactly as many rounds as operations were lacking:
   every registered receiver then stands at the end of the log and holds the
   fold of the whole log, the same set for all, and the ring is empty.
   */
  lemma Converges(s: System, times: seq<u64>, cap: nat, i: nat)
    requires Synced(s) && cap >= FrameLength(DATA) && |times| == Lag(s) && s.sender.seqNo + |times| <= MAX_U16
    requires i < |s.sender.slots| && s.sender.slots[i].active
    ensures var t, rid := Rounds(s, times, cap), s.sender.slots[i].rid;
            && rid in s.nodes && rid in t.nodes && t.sender.log == s.sender.log
            && t.nodes[rid].r.last == |s.sender.log|
            && t.nodes[rid].numbers == Fold({}, s.sender.log)
            && (times != [] && s.sender.Latest() < MAX_U32 ==> t.sender.Retained() == 0)
  {
    RoundsLowerLag(s, times, cap);
    if times != [] && s.sender.Latest() < MAX_U32 {
      RoundsEmptyRing(s, times, cap);
    }
    var t, rid := Rounds(s, times, cap), s.sender.slots[i].rid;
    assert SlotSynced(s, s.sender.slots[i]) && SlotSynced(t, t.sender.slots[i]);
    SyncedPositions(t);
    LagZero(t.sender.Latest(), t.sender.slots);
    assert NodeOk(s.sender.log, s.nodes[rid]);
    CaughtUp(t, rid);
    assert t.sender.log[..|t.sender.log|] == t.sender.log;
  }

  /** Once nothing is lacking a further poll sends nothing and leaves the ring empty. */
  lemma DrainedRing(s: System, now: u64, cap: nat)
    requires Synced(s) && Lag(s) == 0 && s.sender.Latest() < MAX_U32
    ensures S.Poll(s.sender, now, cap).frame == None
    ensures S.Poll(s.sender, now, cap).state.Retained() == 0
  {
    SyncedPositions(s);
    LagZero(s.sender.Latest(), s.sender.slots);
    forall i | 0 <= i < |s.sender.slots| ensures !S.Ready(s.sender, i, now) {
      assert SlotSynced(s, s.sender.slots[i]);
    }
    Scheduling.PollSendsIffReady(s.sender, now, cap);
    S.FloorIsLowest(s.sender.slots, Inc32(s.sender.Latest()));
    assert S.Reclaim(s.sender).oldest == s.sender.Latest() + 1;
  }
}
