/**
 The loop of poll, apply and acknowledge over a link that loses frames: as long
 as the last permitted transmission of each operation and its answer get
 through, every receiver is brought to the end of the log and no slot gives up.
 */
module Retransmission {
  import opened Words
  import opened Framing
  import opened OpFrames
  import opened Operations
  import S = SenderModel
  import I = SenderInvariant
  import Scheduling
  import R = Receiver
  import opened Replication
  import opened Convergence

  /** A slot that is idle and in step, or waiting with a retry left and its receiver at most one ahead. */
  predicate SlotPaced(s: System, slot: S.Slot) {
    slot.active ==>
      && !slot.exhausted && slot.rid in s.nodes && s.sender.oldest <= slot.acked + 1
      && var r := s.nodes[slot.rid].r;
         && r.id == slot.rid && r.stream == s.sender.cfg.stream
         && (r.expectedSender == 0 || r.expectedSender == s.sender.cfg.id)
         && if slot.waiting then slot.acked <= r.last <= slot.acked + 1 && slot.retries < s.sender.cfg.maxRetries
            else r.last == slot.acked
  }

  ghost predicate Paced(s: System) {
    && Safe(s)
    && s.sender.cfg.id != 0 && s.sender.cfg.stream != 0
    && forall i :: 0 <= i < |s.sender.slots| ==> SlotPaced(s, s.sender.slots[i])
  }

  lemma SyncedIsPaced(s: System)
    requires Synced(s)
    ensures Paced(s)
  {
    forall i | 0 <= i < |s.sender.slots| ensures SlotPaced(s, s.sender.slots[i]) {
      assert SlotSynced(s, s.sender.slots[i]);
    }
  }

  // ---------- How much is left to send ----------

  /** Transmissions slot `slot` may still need: `grant` for each operation lacking, less those of the one in flight. */
  function SlotWork(latest: u32, grant: nat, slot: S.Slot): int {
    if !slot.active then 0
    else (latest - slot.acked) * grant - (if slot.waiting then slot.retries + 1 else 0)
  }

  function SlotsWork(latest: u32, grant: nat, slots: seq<S.Slot>): int {
    if slots == [] then 0
    else SlotsWork(latest, grant, slots[..|slots| - 1]) + SlotWork(latest, grant, slots[|slots| - 1])
  }

  function Work(s: System): int {
    SlotsWork(s.sender.Latest(), s.sender.cfg.maxRetries + 1, s.sender.slots)
  }

  lemma {:induction false} WorkOfUpdate(latest: u32, grant: nat, slots: seq<S.Slot>, i: nat, slot: S.Slot)
    requires i < |slots|
    ensures SlotsWork(latest, grant, slots[i := slot])
            == SlotsWork(latest, grant, slots) - SlotWork(latest, grant, slots[i]) + SlotWork(latest, grant, slot)
  {
    var n := |slots| - 1;
    if i < n {
      WorkOfUpdate(latest, grant, slots[..n], i, slot);
      assert slots[i := slot][..n] == slots[..n][i := slot];
    } else {
      assert slots[i := slot][..n] == slots[..n];
    }
  }

  /** A slot owes work exactly when it lags. */
  predicate WorkOk(latest: u32, grant: nat, slot: S.Slot) {
    slot.active ==> slot.acked <= latest && (slot.waiting ==> slot.acked < latest && slot.retries + 1 < grant)
  }

  lemma OneSlotWork(latest: u32, grant: nat, slot: S.Slot)
    requires grant > 0 && WorkOk(latest, grant, slot)
    ensures SlotLag(latest, slot) <= SlotWork(latest, grant, slot) <= SlotLag(latest, slot) * grant
  {
    if slot.active && slot.acked < latest {
      Scale(latest - slot.acked - 1, grant - 1);
    }
  }

  lemma Scale(a: nat, b: nat)
    ensures (a + 1) * (b + 1) >= a + 1 + b
  {
    assert (a + 1) * (b + 1) == a * b + a + b + 1;
  }

  lemma {:induction false} WorkBounds(latest: u32, grant: nat, slots: seq<S.Slot>)
    requires grant > 0 && forall i :: 0 <= i < |slots| ==> WorkOk(latest, grant, slots[i])
    ensures SlotsWork(latest, grant, slots) <= SlotsLag(latest, slots) * grant
    ensures SlotsWork(latest, grant, slots) >= SlotsLag(latest, slots)
  {
    if slots != [] {
      var n := |slots| - 1;
      WorkBounds(latest, grant, slots[..n]);
      OneSlotWork(latest, grant, slots[n]);
      Distribute(SlotsLag(latest, slots[..n]), SlotLag(latest, slots[n]), grant);
    }
  }

  lemma Distribute(a: int, b: int, grant: nat)
    ensures (a + b) * grant == a * grant + b * grant
  {}

  lemma PacedWork(s: System)
    requires Paced(s)
    ensures Lag(s) <= Work(s) <= Lag(s) * (s.sender.cfg.maxRetries + 1)
    ensures forall i :: 0 <= i < |s.sender.slots| && s.sender.slots[i].active ==>
            s.sender.slots[i].acked <= s.sender.Latest()
  {
    forall i | 0 <= i < |s.sender.slots|
      ensures WorkOk(s.sender.Latest(), s.sender.cfg.maxRetries + 1, s.sender.slots[i])
    {
      var slot := s.sender.slots[i];
      assert SlotPaced(s, slot) && I.SlotOk(s.sender, slot);
      if slot.active {
        assert NodeOk(s.sender.log, s.nodes[slot.rid]);
      }
    }
    WorkBounds(s.sender.Latest(), s.sender.cfg.maxRetries + 1, s.sender.slots);
  }

  // ---------- One round ----------

  /** What becomes of a transmission: it is lost, or it reaches its receiver, whose answer arrives or is lost. */
  datatype Fate = DataLost | Reached(callback: R.Callback, answered: bool)

  function LossyRound(s: System, now: u64, cap: nat, fate: Fate): System {
    var polled := Step(s, Local(S.PollEvent(now, cap)));
    match S.Poll(s.sender, now, cap).frame
    case None => polled
    case Some(f) => Arrival(polled, f, now, cap, fate)
  }

  function Arrival(p: System, f: Frame, now: u64, cap: nat, fate: Fate): System {
    match fate
    case DataLost => p
    case Reached(callback, answered) =>
      if answered then Exchange(p, f, now, cap, callback) else Step(p, DataTo(f.header.receiver, f, cap, callback))
  }

  /** An answer arrives that may say that the callback failed. */
  predicate Refuses(fate: Fate) {
    fate.Reached? && fate.answered && fate.callback != R.Succeeds
  }

  /**
   A transmission or its answer is lost only if the operation may be sent
   again, and no callback fails once the log is full: NACKs are refused then.
   */
  predicate Spared(s: System, now: u64, cap: nat, fate: Fate) {
    if fate.Reached? && fate.answered then fate.callback == R.Succeeds || s.sender.Latest() < MAX_U32
    else
      forall i :: 0 <= i < |s.sender.slots| && Scheduling.Serves(s.sender, now, cap, i) ==>
        (s.sender.slots[i].waiting ==> s.sender.slots[i].retries + 1 < s.sender.cfg.maxRetries)
            && s.sender.cfg.maxRetries > 0
  }

  /** Slot `i` of `s` was sent its next operation in `p`, once more if it was waiting. */
  predicate ResentTo(s: S.State, p: S.State, i: nat, f: Frame) {
    && i < |s.slots| == |p.slots| && s.slots[i].active && s.slots[i].acked < s.Latest()
    && f == S.DataFrame(s, s.slots[i].rid, s.slots[i].acked + 1, s.log[s.slots[i].acked])
    && p.slots[i].(due := s.slots[i].due)
       == s.slots[i].(waiting := true, inflight := s.slots[i].acked + 1,
                      retries := p.slots[i].retries)
    && p.slots[i].retries as int == (if s.slots[i].waiting then s.slots[i].retries + 1 else 0)
    && p.seqNo == s.seqNo + 1
    && p == S.Reclaim(s).(seqNo := p.seqNo, cursor := p.cursor, slots := s.slots[i := p.slots[i]])
  }

  lemma NothingGivenUp(s: System, k: nat, now: u64)
    requires Paced(s) && s.sender.slots != [] && k <= |s.sender.slots|
    ensures S.SweptSlots(S.Reclaim(s.sender), S.Start(s.sender), k, now) == s.sender.slots
  {
    forall i | 0 <= i < |s.sender.slots|
      ensures S.SweptSlots(S.Reclaim(s.sender), S.Start(s.sender), k, now)[i] == s.sender.slots[i]
    {
      S.SweptAt(S.Reclaim(s.sender), S.Start(s.sender), k, now, i);
      assert SlotPaced(s, s.sender.slots[i]);
    }
  }

  lemma PacedPoll(s: System, now: u64, cap: nat) returns (i: nat)
    requires Paced(s) && S.Poll(s.sender, now, cap).frame.Some?
    ensures var e := S.Poll(s.sender, now, cap);
            Scheduling.Serves(s.sender, now, cap, i) && ResentTo(s.sender, e.state, i, e.frame.value)
  {
    i := Scheduling.PollServesFirstReady(s.sender, now, cap);
    assert SlotPaced(s, s.sender.slots[i]);
    NothingGivenUp(s, S.Distance(|s.sender.slots|, S.Start(s.sender), i), now);
  }

  lemma SilentPoll(s: System, now: u64, cap: nat)
    requires Paced(s) && S.Poll(s.sender, now, cap).frame == None && cap >= FrameLength(DATA) && s.sender.seqNo < MAX_U16
    ensures S.Poll(s.sender, now, cap).state == S.Reclaim(s.sender)
  {
    if s.sender.slots != [] {
      Scheduling.PollSendsIffReady(s.sender, now, cap);
      Scheduling.ChosenIsFirst(s.sender, now);
      NothingGivenUp(s, S.Chosen(s.sender, now), now);
    }
  }

  /**
   The receiver of a paced slot acknowledges the operation in flight if it had
   applied it or does so now, and asks for it again otherwise.
   */
  lemma PacedApply(node: Node, f: Frame, cap: nat, callback: R.Callback)
    requires f.payload.Data? && Legal(f) && cap >= FrameLength(DATA) && node.r.id != 0
    requires f.header.receiver == node.r.id && f.payload.stream == node.r.stream
    requires node.r.last <= f.payload.opId <= node.r.last + 1
    requires node.r.expectedSender == 0 || node.r.expectedSender == f.header.sender
    ensures var e := R.HandleData(node.r, f, cap, callback);
            var done := callback == R.Succeeds || f.payload.opId == node.r.last;
            && e.state == node.r.(last := if done then f.payload.opId else node.r.last, seqNo := Inc16(node.r.seqNo))
            && AfterData(node, f, cap, callback).r == e.state && e.reply.Some?
            && e.reply.value.header == Header(node.r.id, f.header.sender, node.r.seqNo)
            && e.reply.value.payload == (if done then Ack(node.r.stream, f.payload.opId)
                                         else Nack(node.r.stream, ERR_APPLY_FAILED, 0, f.payload.opId))
  {}

  /** From `s` to `t` only slot `i` and its receiver changed, and the history still serves every slot. */
  predicate Touched(s: System, t: System, i: nat) {
    && i < |s.sender.slots| == |t.sender.slots| && s.sender.slots[i].active
    && t.sender.log == s.sender.log && t.sender.cfg == s.sender.cfg
    && t.sender.slots == s.sender.slots[i := t.sender.slots[i]]
    && t.sender.slots[i].active && t.sender.slots[i].rid == s.sender.slots[i].rid
    && (forall j :: 0 <= j < |t.sender.slots| && t.sender.slots[j].active ==> t.sender.oldest <= t.sender.slots[j].acked + 1)
    && var rid := s.sender.slots[i].rid;
       && rid in s.nodes && rid in t.nodes && t.nodes == s.nodes[rid := t.nodes[rid]]
  }

  lemma TouchedCast(s: System, t: System, i: nat)
    requires Touched(s, t, i)
    ensures SameCast(s, t)
  {}

  lemma TouchedPaced(s: System, t: System, i: nat)
    requires Paced(s) && Safe(t) && Touched(s, t, i) && SlotPaced(t, t.sender.slots[i])
    ensures Paced(t)
  {
    forall j | 0 <= j < |t.sender.slots| ensures SlotPaced(t, t.sender.slots[j]) {
      assert SlotPaced(s, s.sender.slots[j]);
      if j != i && s.sender.slots[j].active {
        assert s.sender.slots[j].rid != s.sender.slots[i].rid;
      }
    }
  }

  /** Where a round leaves the slot it served: moved on, waiting after one more transmission, or idle where it was. */
  datatype Outcome = Advances | Waits | Rewinds

  predicate Served(s: S.State, slot: S.Slot, after: S.Slot, outcome: Outcome) {
    match outcome
    case Advances => after.acked as int == slot.acked + 1 && !after.waiting
    case Waits =>
      && after.acked == slot.acked && after.waiting
      && after.retries as int == (if slot.waiting then slot.retries + 1 else 0)
    case Rewinds => after.acked == slot.acked && !after.waiting
  }

  lemma ServedWork(s: System, t: System, i: nat, outcome: Outcome)
    requires Paced(s) && Touched(s, t, i) && Served(s.sender, s.sender.slots[i], t.sender.slots[i], outcome)
    ensures if outcome == Rewinds then Work(t) <= Work(s) + s.sender.cfg.maxRetries else Work(t) < Work(s)
  {
    var latest, grant: nat := s.sender.Latest(), s.sender.cfg.maxRetries + 1;
    var slot, after := s.sender.slots[i], t.sender.slots[i];
    assert SlotPaced(s, slot);
    WorkOfUpdate(latest, grant, s.sender.slots, i, after);
    if outcome == Advances {
      Distribute(latest - after.acked, 1, grant);
    }
  }

  lemma OldestServes(s: System)
    requires Paced(s)
    ensures forall j :: 0 <= j < |s.sender.slots| && s.sender.slots[j].active ==>
            S.Reclaim(s.sender).oldest <= s.sender.slots[j].acked + 1
  {
    S.FloorIsLowest(s.sender.slots, Inc32(s.sender.Latest()));
    forall j | 0 <= j < |s.sender.slots| && s.sender.slots[j].active
      ensures S.Reclaim(s.sender).oldest <= s.sender.slots[j].acked + 1
    {
      assert SlotPaced(s, s.sender.slots[j]);
    }
  }

  /** The poll has sent: a lost frame leaves the system like this. */
  lemma SentRound(s: System, p: System, i: nat, f: Frame)
    requires Paced(s) && Safe(p) && p.nodes == s.nodes && ResentTo(s.sender, p.sender, i, f)
    ensures Touched(s, p, i) && Served(s.sender, s.sender.slots[i], p.sender.slots[i], Waits)
  {
    assert SlotPaced(s, s.sender.slots[i]);
    OldestServes(s);
  }

  /** An ACK for the operation after slot `i`'s position, or a NACK asking for it again. */
  predicate Answers(s: System, i: nat, a: Frame, done: bool)
    requires i < |s.sender.slots|
  {
    && a.header.sender == s.sender.slots[i].rid && a.header.receiver == s.sender.cfg.id
    && a.payload.stream == s.sender.cfg.stream
    && if done then a.payload.Ack? && a.payload.ackId as int == s.sender.slots[i].acked + 1
       else a.payload.Nack? && a.payload.expected as int == s.sender.slots[i].acked + 1
  }

  /** Whether slot `i`'s receiver has its next operation after the callback. */
  predicate Done(s: System, i: nat, callback: R.Callback)
    requires i < |s.sender.slots| && s.sender.slots[i].rid in s.nodes
  {
    callback == R.Succeeds || s.nodes[s.sender.slots[i].rid].r.last as int == s.sender.slots[i].acked + 1
  }

  lemma PacedReaction(s: System, p: System, i: nat, f: Frame, cap: nat, callback: R.Callback)
    requires Paced(s) && p.nodes == s.nodes && ResentTo(s.sender, p.sender, i, f) && cap >= FrameLength(DATA)
    requires I.SlotOk(s.sender, s.sender.slots[i])
    ensures s.sender.slots[i].rid in s.nodes && Legal(f)
    ensures var node, done := s.nodes[s.sender.slots[i].rid], Done(s, i, callback);
            var e := R.HandleData(node.r, f, cap, callback);
            && e.state.(seqNo := 0) == node.r.(seqNo := 0, last := if done then s.sender.slots[i].acked + 1 else node.r.last)
            && AfterData(node, f, cap, callback).r == e.state && e.reply.Some?
            && Answers(s, i, e.reply.value, done)
  {
    var slot := s.sender.slots[i];
    assert SlotPaced(s, slot);
    assert s.sender.log[slot.acked] in s.sender.log;
    PacedApply(s.nodes[slot.rid], f, cap, callback);
  }

  /** From `p` to `t` slot `i`'s receiver took a frame and answered it with `a`. */
  predicate Reacted(s: System, p: System, t: System, i: nat, a: Frame, done: bool)
    requires i < |s.sender.slots| && s.sender.slots[i].rid in s.nodes
  {
    var rid := s.sender.slots[i].rid;
    && s.sender.slots[i].acked < s.sender.Latest() && t.sender == p.sender && rid in t.nodes
       && t.nodes == s.nodes[rid := t.nodes[rid]]
    && t.nodes[rid].r.(seqNo := 0)
       == s.nodes[rid].r.(seqNo := 0, last := if done then s.sender.slots[i].acked + 1 else s.nodes[rid].r.last)
    && a in t.net && Answers(s, i, a, done)
  }

  /** The receiver got the frame. */
  lemma ReachedRound(s: System, p: System, i: nat, f: Frame, now: u64, cap: nat, callback: R.Callback) returns (a: Frame)
    requires Paced(s) && Safe(p) && p.nodes == s.nodes && f in p.net && ResentTo(s.sender, p.sender, i, f)
    requires cap >= FrameLength(DATA) && s.sender.slots[i].rid in s.nodes
    ensures var t := Step(p, DataTo(f.header.receiver, f, cap, callback));
            && Safe(t) && Reacted(s, p, t, i, a, Done(s, i, callback))
            && Exchange(p, f, now, cap, callback) == Step(t, ToSender(a, now))
  {
    assert I.SlotOk(s.sender, s.sender.slots[i]);
    PacedReaction(s, p, i, f, cap, callback);
    SafeDataTo(p, f.header.receiver, f, cap, callback);
    a := R.HandleData(s.nodes[s.sender.slots[i].rid].r, f, cap, callback).reply.value;
  }

  /** The slot after its answer arrived. */
  function Heard(slot: S.Slot, done: bool, now: u64): S.Slot
    requires slot.acked < MAX_U32
  {
    if done then S.Idle(slot).(acked := slot.acked + 1) else S.Idle(slot).(due := now)
  }

  lemma NackTaken(s: S.State, i: nat, now: u64, a: Frame)
    requires I.Inv(s) && i < |s.slots| && s.slots[i].active && s.slots[i].waiting
    requires a.payload.Nack? && a.header.sender == s.slots[i].rid && a.header.receiver == s.cfg.id
    requires a.payload.stream == s.cfg.stream && a.payload.expected == s.slots[i].acked + 1 && s.Latest() < MAX_U32
    ensures S.HandleRx(s, now, a).0 == S.Reclaim(S.WithSlot(s, i, S.Idle(s.slots[i]).(due := now)))
  {
    I.FindsSlot(s, i);
    assert I.SlotOk(s, s.slots[i]);
  }

  /** The sender waits for the answer about slot `i`'s next operation. */
  predicate Awaits(s: S.State, p: S.State, i: nat) {
    && i < |s.slots| == |p.slots| && p.cfg == s.cfg && p.log == s.log && s.slots[i].acked < MAX_U32
    && p.slots[i].active && p.slots[i].waiting && p.slots[i].rid == s.slots[i].rid && p.slots[i].acked == s.slots[i].acked
  }

  lemma ResentAwaits(s: S.State, p: S.State, i: nat, f: Frame)
    requires ResentTo(s, p, i, f)
    ensures Awaits(s, p, i)
  {}

  /** The sender takes the answer. */
  lemma AnswerTaken(s: System, p: System, i: nat, now: u64, a: Frame, done: bool)
    requires I.Inv(p.sender) && Awaits(s.sender, p.sender, i) && Answers(s, i, a, done)
    requires done || s.sender.Latest() < MAX_U32
    ensures S.HandleRx(p.sender, now, a).0 == S.Reclaim(S.WithSlot(p.sender, i, Heard(p.sender.slots[i], done, now)))
  {
    if done {
      SyncedAck(p.sender, i, now, a);
    } else {
      NackTaken(p.sender, i, now, a);
    }
  }

  lemma HeardTouched(s: System, p: System, i: nat, f: Frame, t: System, slot: S.Slot)
    requires Paced(s) && ResentTo(s.sender, p.sender, i, f) && s.sender.slots[i].rid in s.nodes
    requires slot.active && slot.rid == s.sender.slots[i].rid && slot.acked >= s.sender.slots[i].acked
    requires t.sender == S.Reclaim(S.WithSlot(p.sender, i, slot))
    requires slot.rid in t.nodes && t.nodes == s.nodes[slot.rid := t.nodes[slot.rid]]
    ensures Touched(s, t, i) && t.sender.slots[i] == slot
    ensures t.sender.seqNo == p.sender.seqNo && t.sender.cursor == p.sender.cursor
  {
    OldestServes(s);
    forall j | 0 <= j < |t.sender.slots| && t.sender.slots[j].active ensures t.sender.oldest <= t.sender.slots[j].acked + 1 {
      RoundOldest(p.sender, i, slot, j);
    }
  }

  /** The sender got the answer. */
  lemma AnsweredRound(s: System, p: System, i: nat, f: Frame, now: u64, cap: nat, callback: R.Callback) returns (a: Frame)
    requires Paced(s) && Safe(p) && p.nodes == s.nodes && f in p.net && ResentTo(s.sender, p.sender, i, f)
    requires cap >= FrameLength(DATA) && (callback == R.Succeeds || s.sender.Latest() < MAX_U32)
    ensures s.sender.slots[i].rid in s.nodes
    ensures var t, done := Exchange(p, f, now, cap, callback), Done(s, i, callback);
            && Paced(t) && Touched(s, t, i)
            && Served(s.sender, s.sender.slots[i], t.sender.slots[i], if done then Advances else Rewinds)
            && t.sender.seqNo == p.sender.seqNo && t.sender.cursor == p.sender.cursor
            && a in t.net && Answers(s, i, a, done)
  {
    assert SlotPaced(s, s.sender.slots[i]);
    a := ReachedRound(s, p, i, f, now, cap, callback);
    var q := Step(p, DataTo(f.header.receiver, f, cap, callback));
    SafeToSender(q, a, now);
    HeardRound(s, p, q, i, f, now, a, Done(s, i, callback));
  }

  lemma HeardRound(s: System, p: System, q: System, i: nat, f: Frame, now: u64, a: Frame, done: bool)
    requires Paced(s) && I.Inv(p.sender) && ResentTo(s.sender, p.sender, i, f) && s.sender.slots[i].rid in s.nodes
    requires Reacted(s, p, q, i, a, done) && Safe(Step(q, ToSender(a, now)))
    requires !done ==> s.nodes[s.sender.slots[i].rid].r.last == s.sender.slots[i].acked && s.sender.Latest() < MAX_U32
    ensures var t := Step(q, ToSender(a, now));
            && Paced(t) && Touched(s, t, i)
            && Served(s.sender, s.sender.slots[i], t.sender.slots[i], if done then Advances else Rewinds)
            && t.sender.seqNo == p.sender.seqNo && t.sender.cursor == p.sender.cursor && t.net == q.net
  {
    var t := Step(q, ToSender(a, now));
    ResentAwaits(s.sender, p.sender, i, f);
    AnswerTaken(s, p, i, now, a, done);
    HeardTouched(s, p, i, f, t, Heard(p.sender.slots[i], done, now));
    HeardPaced(s, t, i, p.sender.slots[i], done, now);
  }

  lemma HeardPaced(s: System, t: System, i: nat, slot: S.Slot, done: bool, now: u64)
    requires Paced(s) && Safe(t) && Touched(s, t, i) && s.sender.slots[i].acked == slot.acked < MAX_U32
    requires slot.active && slot.rid == s.sender.slots[i].rid && t.sender.slots[i] == Heard(slot, done, now)
    requires !done ==> s.nodes[slot.rid].r.last == slot.acked
    requires t.nodes[slot.rid].r.(seqNo := 0)
             == s.nodes[slot.rid].r.(seqNo := 0, last := if done then slot.acked + 1 else s.nodes[slot.rid].r.last)
    ensures Paced(t) && Served(s.sender, s.sender.slots[i], t.sender.slots[i], if done then Advances else Rewinds)
  {
    assert SlotPaced(s, s.sender.slots[i]);
    TouchedPaced(s, t, i);
  }

  /** What a round may add to the work: less than the transmissions of one operation if the callback failed, else nothing. */
  predicate Advanced(s: System, t: System, fate: Fate) {
    && t.sender.seqNo as int == s.sender.seqNo + 1
    && if Refuses(fate) then Work(t) <= Work(s) + s.sender.cfg.maxRetries else Work(t) < Work(s)
  }

  /**
   A round in which something is sent leaves less to send, unless the receiver
   says that its callback failed; a round in which nothing is sent only
   reclaims history.
   */
  lemma PacedRound(s: System, now: u64, cap: nat, fate: Fate)
    requires Paced(s) && cap >= FrameLength(DATA) && s.sender.seqNo < MAX_U16 && Spared(s, now, cap, fate)
    ensures var t := LossyRound(s, now, cap, fate);
            && Paced(t) && SameCast(s, t)
            && if S.Poll(s.sender, now, cap).frame.Some? then Advanced(s, t, fate)
               else Work(t) == Work(s) && t.sender.seqNo == s.sender.seqNo
  {
    if S.Poll(s.sender, now, cap).frame.Some? {
      SentRoundPaced(s, now, cap, fate);
    } else {
      SilentPoll(s, now, cap);
      SafeLocal(s, S.PollEvent(now, cap));
      SilentPaced(s, LossyRound(s, now, cap, fate));
    }
  }

  lemma SilentPaced(s: System, t: System)
    requires Paced(s) && Safe(t) && t.sender == S.Reclaim(s.sender) && t.nodes == s.nodes
    ensures Paced(t) && Work(t) == Work(s)
  {
    OldestServes(s);
    forall j | 0 <= j < |t.sender.slots| ensures SlotPaced(t, t.sender.slots[j]) {
      assert SlotPaced(s, s.sender.slots[j]);
    }
  }

  lemma SentRoundPaced(s: System, now: u64, cap: nat, fate: Fate)
    requires Paced(s) && cap >= FrameLength(DATA) && Spared(s, now, cap, fate) && S.Poll(s.sender, now, cap).frame.Some?
    ensures var t := LossyRound(s, now, cap, fate); Paced(t) && SameCast(s, t) && Advanced(s, t, fate)
  {
    var i := PacedPoll(s, now, cap);
    var p, f := Step(s, Local(S.PollEvent(now, cap))), S.Poll(s.sender, now, cap).frame.value;
    SafeLocal(s, S.PollEvent(now, cap));
    FateAdvances(s, p, i, f, now, cap, fate);
  }

  lemma FateAdvances(s: System, p: System, i: nat, f: Frame, now: u64, cap: nat, fate: Fate)
    requires Paced(s) && Safe(p) && p.nodes == s.nodes && f in p.net && ResentTo(s.sender, p.sender, i, f)
    requires cap >= FrameLength(DATA)
    requires if fate.Reached? && fate.answered then fate.callback == R.Succeeds || s.sender.Latest() < MAX_U32
             else p.sender.slots[i].retries < s.sender.cfg.maxRetries
    ensures var t := Arrival(p, f, now, cap, fate); Paced(t) && SameCast(s, t) && Advanced(s, t, fate)
  {
    match fate
    case DataLost => LossAdvances(s, p, i, f);
    case Reached(callback, answered) =>
      if answered {
        AnswerAdvances(s, p, i, f, now, cap, callback);
      } else {
        AckLossAdvances(s, p, i, f, now, cap, callback);
      }
  }

  lemma TouchedAdvances(s: System, t: System, i: nat, outcome: Outcome, fate: Fate)
    requires Paced(s) && Touched(s, t, i) && Served(s.sender, s.sender.slots[i], t.sender.slots[i], outcome)
    requires t.sender.seqNo as int == s.sender.seqNo + 1 && (outcome == Rewinds ==> Refuses(fate))
    ensures SameCast(s, t) && Advanced(s, t, fate)
  {
    ServedWork(s, t, i, outcome);
    TouchedCast(s, t, i);
  }

  lemma AnswerAdvances(s: System, p: System, i: nat, f: Frame, now: u64, cap: nat, callback: R.Callback)
    requires Paced(s) && Safe(p) && p.nodes == s.nodes && f in p.net && ResentTo(s.sender, p.sender, i, f)
    requires cap >= FrameLength(DATA) && (callback == R.Succeeds || s.sender.Latest() < MAX_U32)
    ensures var t := Exchange(p, f, now, cap, callback);
            Paced(t) && SameCast(s, t) && Advanced(s, t, Reached(callback, true))
  {
    var a := AnsweredRound(s, p, i, f, now, cap, callback);
    var t, outcome := Exchange(p, f, now, cap, callback), if Done(s, i, callback) then Advances else Rewinds;
    TouchedAdvances(s, t, i, outcome, Reached(callback, true));
  }

  lemma LossAdvances(s: System, p: System, i: nat, f: Frame)
    requires Paced(s) && Safe(p) && p.nodes == s.nodes && ResentTo(s.sender, p.sender, i, f)
    requires p.sender.slots[i].retries < s.sender.cfg.maxRetries
    ensures Paced(p) && SameCast(s, p) && Advanced(s, p, DataLost)
  {
    assert SlotPaced(s, s.sender.slots[i]);
    SentRound(s, p, i, f);
    WaitingPaced(s, p, i);
    TouchedAdvances(s, p, i, Waits, DataLost);
  }

  lemma AckLossAdvances(s: System, p: System, i: nat, f: Frame, now: u64, cap: nat, callback: R.Callback)
    requires Paced(s) && Safe(p) && p.nodes == s.nodes && f in p.net && ResentTo(s.sender, p.sender, i, f)
    requires p.sender.slots[i].retries < s.sender.cfg.maxRetries && cap >= FrameLength(DATA)
    ensures var t := Step(p, DataTo(f.header.receiver, f, cap, callback));
            Paced(t) && SameCast(s, t) && Advanced(s, t, Reached(callback, false))
  {
    var t := Step(p, DataTo(f.header.receiver, f, cap, callback));
    assert SlotPaced(s, s.sender.slots[i]);
    SentRound(s, p, i, f);
    var a := ReachedRound(s, p, i, f, now, cap, callback);
    WaitingPaced(s, t, i);
    TouchedAdvances(s, t, i, Waits, Reached(callback, false));
  }

  lemma WaitingPaced(s: System, t: System, i: nat)
    requires Paced(s) && Safe(t) && Touched(s, t, i) && Served(s.sender, s.sender.slots[i], t.sender.slots[i], Waits)
    requires t.sender.slots[i].retries < s.sender.cfg.maxRetries && !t.sender.slots[i].exhausted
    requires var rid, acked := s.sender.slots[i].rid, s.sender.slots[i].acked;
             t.nodes[rid].r.(seqNo := 0, last := 0) == s.nodes[rid].r.(seqNo := 0, last := 0)
             && acked <= t.nodes[rid].r.last <= acked + 1
    ensures Paced(t)
  {
    assert SlotPaced(s, s.sender.slots[i]);
    TouchedPaced(s, t, i);
  }

  // ---------- The whole loop ----------

  /** Every slot that waits is due. */
  predicate Due(s: System, now: u64) {
    forall i :: 0 <= i < |s.sender.slots| && s.sender.slots[i].active && s.sender.slots[i].waiting ==>
        s.sender.slots[i].due <= now
  }

  function LossyRounds(s: System, rounds: seq<(u64, Fate)>, cap: nat): System
    decreases |rounds|
  {
    if rounds == [] then s else LossyRounds(LossyRound(s, rounds[0].0, cap, rounds[0].1), rounds[1..], cap)
  }

  /** Polls wait for the deadlines, and no operation loses its last transmission or the answer to it. */
  predicate Fair(s: System, rounds: seq<(u64, Fate)>, cap: nat)
    decreases |rounds|
  {
    rounds == [] ||
    var (now, fate) := rounds[0];
    Due(s, now) && Spared(s, now, cap, fate) && Fair(LossyRound(s, now, cap, fate), rounds[1..], cap)
  }

  lemma DuePollSends(s: System, now: u64, cap: nat)
    requires Paced(s) && Due(s, now) && Lag(s) > 0 && cap >= FrameLength(DATA) && s.sender.seqNo < MAX_U16
    ensures S.Poll(s.sender, now, cap).frame.Some?
  {
    PacedWork(s);
    LagZero(s.sender.Latest(), s.sender.slots);
    var j :| 0 <= j < |s.sender.slots| && s.sender.slots[j].active && s.sender.slots[j].acked != s.sender.Latest();
    assert SlotPaced(s, s.sender.slots[j]);
    assert S.Ready(s.sender, j, now);
    Scheduling.PollSendsIffReady(s.sender, now, cap);
  }

  /** How many rounds may bring a refusal. */
  function Refusals(rounds: seq<(u64, Fate)>): nat {
    if rounds == [] then 0 else (if Refuses(rounds[0].1) then 1 else 0) + Refusals(rounds[1..])
  }

  /** With nothing lacking, nothing is sent. */
  lemma DoneIsSilent(s: System, now: u64, cap: nat)
    requires Paced(s) && Lag(s) == 0
    ensures S.Poll(s.sender, now, cap).frame == None
  {
    if S.Poll(s.sender, now, cap).frame.Some? {
      var i := PacedPoll(s, now, cap);
      PacedWork(s);
      LagZero(s.sender.Latest(), s.sender.slots);
      assert false;
    }
  }

  lemma DueRound(s: System, now: u64, cap: nat, fate: Fate)
    requires Paced(s) && Due(s, now) && Spared(s, now, cap, fate) && cap >= FrameLength(DATA) && s.sender.seqNo < MAX_U16
    ensures var t := LossyRound(s, now, cap, fate);
            && Paced(t) && SameCast(s, t) && t.sender.seqNo <= s.sender.seqNo + 1
            && if Lag(s) == 0 then Lag(t) == 0 else Advanced(s, t, fate)
  {
    PacedRound(s, now, cap, fate);
    if Lag(s) == 0 {
      DoneIsSilent(s, now, cap);
      PacedWork(s);
      PacedWork(LossyRound(s, now, cap, fate));
    } else {
      PacedWork(s);
      DuePollSends(s, now, cap);
    }
  }

  lemma {:induction false} RoundsFinish(s: System, rounds: seq<(u64, Fate)>, cap: nat)
    requires Paced(s) && Fair(s, rounds, cap) && cap >= FrameLength(DATA) && s.sender.seqNo + |rounds| <= MAX_U16
    ensures var t := LossyRounds(s, rounds, cap);
            && Paced(t) && SameCast(s, t)
            && (Lag(s) == 0 || |rounds| >= Allowance(Work(s), rounds, s.sender.cfg.maxRetries) ==> Lag(t) == 0)
    decreases |rounds|
  {
    if rounds == [] {
      PacedWork(s);
    } else {
      var (now, fate) := rounds[0];
      DueRound(s, now, cap, fate);
      RoundsFinish(LossyRound(s, now, cap, fate), rounds[1..], cap);
      AllowanceFalls(Work(s), Work(LossyRound(s, now, cap, fate)), rounds, s.sender.cfg.maxRetries);
    }
  }

  /** Rounds needed from work `w` on: one for each transmission, and those of one operation for each refusal. */
  function Allowance(w: int, rounds: seq<(u64, Fate)>, m: nat): int {
    w + Refusals(rounds) * (m + 1)
  }

  lemma AllowanceFalls(w: int, v: int, rounds: seq<(u64, Fate)>, m: nat)
    requires rounds != []
    ensures (if Refuses(rounds[0].1) then v <= w + m else v < w) ==> Allowance(v, rounds[1..], m) < Allowance(w, rounds, m)
  {
    Distribute(if Refuses(rounds[0].1) then 1 else 0, Refusals(rounds[1..]), m + 1);
  }

  /**
   Delivery over a losing link to applications that may fail: after as many
   rounds as transmissions may be needed, `max_retries + 1` at most for each
   operation lacking and each refusal, no slot has given up and every receiver
   holds the fold of the whole log.
   */
  lemma LossyConverges(s: System, rounds: seq<(u64, Fate)>, cap: nat, i: nat)
    requires Paced(s) && Fair(s, rounds, cap) && cap >= FrameLength(DATA) && s.sender.seqNo + |rounds| <= MAX_U16
    requires |rounds| >= Allowance(Work(s), rounds, s.sender.cfg.maxRetries)
    requires i < |s.sender.slots| && s.sender.slots[i].active
    ensures Allowance(Work(s), rounds, s.sender.cfg.maxRetries)
         <= Allowance(Lag(s) * (s.sender.cfg.maxRetries + 1), rounds, s.sender.cfg.maxRetries)
    ensures var t, rid := LossyRounds(s, rounds, cap), s.sender.slots[i].rid;
            && |t.sender.slots| == |s.sender.slots| && !t.sender.slots[i].exhausted && rid in t.nodes
            && t.sender.log == s.sender.log && t.nodes[rid].r.last == |s.sender.log|
            && t.nodes[rid].numbers == Fold({}, s.sender.log)
  {
    RoundsFinish(s, rounds, cap);
    PacedWork(s);
    FinishedSlot(LossyRounds(s, rounds, cap), i);
  }

  lemma FinishedSlot(t: System, i: nat)
    requires Paced(t) && Lag(t) == 0 && i < |t.sender.slots| && t.sender.slots[i].active
    ensures var rid := t.sender.slots[i].rid;
            && !t.sender.slots[i].exhausted && rid in t.nodes && t.nodes[rid].r.last == |t.sender.log|
            && t.nodes[rid].numbers == Fold({}, t.sender.log)
  {
    var slot := t.sender.slots[i];
    PacedWork(t);
    LagZero(t.sender.Latest(), t.sender.slots);
    assert SlotPaced(t, slot) && I.SlotOk(t.sender, slot);
    assert NodeOk(t.sender.log, t.nodes[slot.rid]);
    CaughtUp(t, slot.rid);
    assert t.sender.log[..|t.sender.log|] == t.sender.log;
  }
}
