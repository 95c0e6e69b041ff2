/**
 What a receiver may lose by restarting at an older position, even if the
 sender's record of it is reset to the truth. Nothing in an ACK tells one life
 of a receiver from the next: an ACK from before the restart may arrive when
 the same operation is sent again, and be taken for the new one's.
 */
module Restarts {
  import opened Words
  import opened OpFrames
  import opened Runs
  import S = SenderModel
  import I = SenderInvariant
  import R = Receiver
  import opened Replication
  import opened Truncation
  import opened Convergence
  import opened Isolation

  /** Receiver `rid` restarts at `position`, and the sender is told so. */
  function FallBack(s: System, rid: u16, position: u32): System {
    Step(Step(s, Restart(rid, position)), Local(S.ProgressEvent(rid, position)))
  }

  /** The history no longer holds the operation registered receiver `rid` needs next. */
  predicate Loses(t: System, rid: u16) {
    exists i :: 0 <= i < |t.sender.slots| && t.sender.slots[i].active && t.sender.slots[i].rid == rid && rid in t.nodes &&
                t.nodes[rid].r.last < t.sender.Latest() && S.FindOp(t.sender, t.nodes[rid].r.last + 1) == None
  }

  // ---------- Safe when nothing beyond the position was acknowledged ----------

  lemma FallBackTracks(s: System, rid: u16, position: u32)
    requires Tracks(s, false) && rid in s.nodes && position <= s.nodes[rid].r.last && s.sender.oldest <= position + 1
    requires forall f :: f in s.net ==> !AcksBeyond(s.sender.cfg, f, rid, position)
    ensures Tracks(FallBack(s, rid, position), false)
  {
    var q, t := Step(s, Restart(rid, position)), FallBack(s, rid, position);
    SafeRestart(s, rid, position);
    SafeLocal(q, S.ProgressEvent(rid, position));
    forall i | 0 <= i < |t.sender.slots| ensures SlotTracks(t, t.sender.slots[i], false) {
      assert SlotTracks(s, s.sender.slots[i], false);
      FallBackSlot(s, rid, position, i);
    }
    forall f | f in t.net ensures FrameTracks(t, f, false) {
      assert FrameTracks(s, f, false);
    }
  }

  lemma FallBackSlot(s: System, rid: u16, position: u32, i: nat)
    requires I.Inv(s.sender) && rid in s.nodes && position <= s.nodes[rid].r.last && s.sender.oldest <= position + 1
    requires i < |s.sender.slots| && SlotTracks(s, s.sender.slots[i], false)
    ensures var t := FallBack(s, rid, position); i < |t.sender.slots| && SlotTracks(t, t.sender.slots[i], false)
  {
    var k := S.FindSlot(s.sender.slots, rid);
    S.FindSlotFirst(s.sender.slots, rid);
    if k < |s.sender.slots| {
      var w := S.WithSlot(s.sender, k, S.Idle(s.sender.slots[k]).(acked := position));
      S.FloorIsLowest(w.slots, Inc32(w.Latest()));
      assert w.slots[i].active ==> S.Floor(w.slots, Inc32(w.Latest())) <= Inc32(w.slots[i].acked);
    }
  }

  lemma TrackedNeverLoses(t: System, u: System, rid: u16)
    requires Tracks(t, false) && Reaches(Step, Loose, t, u)
    ensures !Loses(u, rid)
  {
    var es :| Always(Step, Loose, t, es) && Run(Step, t, es) == u;
    RunTracks(t, es, Loose, false);
    HistoryKept(u, rid);
  }

  lemma HistoryKept(u: System, rid: u16)
    requires Tracks(u, false)
    ensures !Loses(u, rid)
  {
    forall i | 0 <= i < |u.sender.slots| ensures HistoryServes(u, u.sender.slots[i], false) {
      TracksHistory(u, i, false);
    }
  }

  // ---------- Lost otherwise ----------

  /** After the reset slot `k` is idle at the receiver's true position. */
  lemma FallBackState(s: System, k: nat, rid: u16, position: u32)
    requires Safe(s) && k < |s.sender.slots| && s.sender.slots[k].active && s.sender.slots[k].rid == rid && rid in s.nodes
    requires position <= s.nodes[rid].r.last && s.sender.oldest <= position + 1
    ensures var t := FallBack(s, rid, position);
            && Safe(t) && t.net == s.net && t.nodes == s.nodes[rid := AfterRestart(s.nodes[rid], position)]
            && t.sender.log == s.sender.log && t.sender.cfg == s.sender.cfg && t.sender.seqNo == s.sender.seqNo
            && t.sender.slots == s.sender.slots[k := S.Idle(s.sender.slots[k]).(acked := position)]
            && t.sender.oldest <= position + 1
  {
    SafeRestart(s, rid, position);
    SafeLocal(Step(s, Restart(rid, position)), S.ProgressEvent(rid, position));
    I.FindsSlot(s.sender, k);
    ReclaimKeepsNeeded(S.WithSlot(s.sender, k, S.Idle(s.sender.slots[k]).(acked := position)), k);
  }

  /** Slot `k` is a step ahead of its receiver, and what the receiver needs next is no longer retained. */
  predicate Overtaken(t: System, k: nat, rid: u16) {
    && k < |t.sender.slots| && t.sender.slots[k].active && t.sender.slots[k].rid == rid && rid in t.nodes
    && t.nodes[rid].r.last + 1 == t.sender.slots[k].acked <= t.sender.Latest()
    && S.FindOp(t.sender, t.sender.slots[k].acked) == None
  }

  /** With no other receiver, advancing a slot drops the operation it advanced over. */
  lemma AdvanceDrops(s: S.State, k: nat)
    requires S.Alone(s, k) && s.slots[k].acked < s.Latest() < MAX_U32 && s.oldest <= s.slots[k].acked + 1
    ensures var acked := s.slots[k].acked + 1;
            var t := S.Reclaim(S.WithSlot(s, k, S.Idle(s.slots[k]).(acked := acked)));
            t.oldest == acked + 1 && S.FindOp(t, acked) == None
  {
    var w := S.WithSlot(s, k, S.Idle(s.slots[k]).(acked := s.slots[k].acked + 1));
    AloneFloor(w, k, Inc32(w.Latest()));
  }

  /** The old ACK fits the operation just sent again. */
  lemma OldAckAccepted(p: System, k: nat, a: Frame, now: u64)
    requires I.Inv(p.sender) && a in p.net && S.Alone(p.sender, k) && p.sender.slots[k].waiting
    requires p.sender.slots[k].acked < p.sender.Latest() < MAX_U32 && p.sender.oldest <= p.sender.slots[k].acked + 1
    requires p.sender.slots[k].rid in p.nodes && p.nodes[p.sender.slots[k].rid].r.last == p.sender.slots[k].acked
    requires a.payload == Ack(p.sender.cfg.stream, p.sender.slots[k].acked + 1)
    requires a.header.sender == p.sender.slots[k].rid && a.header.receiver == p.sender.cfg.id
    ensures Overtaken(Step(p, ToSender(a, now)), k, p.sender.slots[k].rid)
  {
    SyncedAck(p.sender, k, now, a);
    AdvanceDrops(p.sender, k);
  }

  lemma RoundReached(t: System, s: System, now: u64, cap: nat)
    requires Reaches(Step, Loose, t, s)
    ensures Reaches(Step, Loose, t, Round(s, now, cap))
  {
    var poll := Local(S.PollEvent(now, cap));
    var polled := Step(s, poll);
    ReachesNext(Step, Loose, t, s, poll);
    match S.Poll(s.sender, now, cap).frame
    case None =>
    case Some(f) =>
      var rid := f.header.receiver;
      if Enabled(polled, DataTo(rid, f, cap, R.Succeeds)) {
        ReachesNext(Step, Loose, t, polled, DataTo(rid, f, cap, R.Succeeds));
        var applied := Step(polled, DataTo(rid, f, cap, R.Succeeds));
        var reply := R.HandleData(polled.nodes[rid].r, f, cap, R.Succeeds).reply;
        if reply.Some? {
          ReachesNext(Step, Loose, t, applied, ToSender(reply.value, now));
        }
      }
  }

  lemma {:induction false} RoundsReached(t: System, s: System, times: seq<u64>, cap: nat)
    requires Reaches(Step, Loose, t, s)
    ensures Reaches(Step, Loose, t, Rounds(s, times, cap))
    decreases |times|
  {
    if times != [] {
      RoundReached(t, s, times[0], cap);
      RoundsReached(t, Round(s, times[0], cap), times[1..], cap);
    }
  }

  lemma SendAgain(s: System, k: nat, a: Frame, now: u64, cap: nat)
    requires Synced(s) && Lag(s) > 0 && S.Alone(s.sender, k) && a in s.net && s.sender.Latest() < MAX_U32
    requires cap >= FrameLength(DATA) && s.sender.seqNo < MAX_U16 && s.sender.slots[k].acked < MAX_U32
    requires a.payload == Ack(s.sender.cfg.stream, s.sender.slots[k].acked + 1)
    requires a.header.sender == s.sender.slots[k].rid && a.header.receiver == s.sender.cfg.id
    ensures Overtaken(Step(Step(s, Local(S.PollEvent(now, cap))), ToSender(a, now)), k, s.sender.slots[k].rid)
  {
    var i := SyncedPoll(s, now, cap);
    SafeLocal(s, S.PollEvent(now, cap));
    assert i == k && SlotSynced(s, s.sender.slots[k]);
    ReclaimKeepsNeeded(s.sender, k);
    OldAckAccepted(Step(s, Local(S.PollEvent(now, cap))), k, a, now);
  }

  /** From a synchronised state with one receiver, an ACK for an operation still to come ends in losing that operation. */
  lemma StaleAckOvertakes(t: System, s: System, k: nat, a: Frame, now: u64, cap: nat) returns (u: System)
    requires Reaches(Step, Loose, t, s) && Synced(s) && S.Alone(s.sender, k) && a in s.net && cap >= FrameLength(DATA)
    requires AcksBeyond(s.sender.cfg, a, s.sender.slots[k].rid, s.sender.slots[k].acked)
    requires a.payload.ackId <= s.sender.Latest() < MAX_U32
    requires s.sender.seqNo + (a.payload.ackId - s.sender.slots[k].acked) <= MAX_U16
    ensures Reaches(Step, Loose, t, u) && Overtaken(u, k, s.sender.slots[k].rid)
  {
    var times := Times(a.payload.ackId - 1 - s.sender.slots[k].acked, now);
    CaughtUpTo(s, k, times, cap, a.payload.ackId - 1);
    RoundsReached(t, s, times, cap);
    var v, poll := Rounds(s, times, cap), Local(S.PollEvent(now, cap));
    SendAgain(v, k, a, now, cap);
    ReachesNext(Step, Loose, t, v, poll);
    ReachesNext(Step, Loose, t, Step(v, poll), ToSender(a, now));
    u := Step(Step(v, poll), ToSender(a, now));
  }

  function Times(n: nat, now: u64): (times: seq<u64>)
    ensures |times| == n
  {
    if n == 0 then [] else Times(n - 1, now) + [now]
  }

  /** What slot `k` and its receiver need to talk to each other at all. */
  predicate Speaking(s: System, k: nat) {
    && s.sender.cfg.id != 0 && s.sender.cfg.stream != 0 && k < |s.sender.slots| && s.sender.slots[k].active
    && s.sender.slots[k].rid in s.nodes
    && var r := s.nodes[s.sender.slots[k].rid].r;
       r.stream == s.sender.cfg.stream && (r.expectedSender == 0 || r.expectedSender == s.sender.cfg.id)
  }

  lemma FallBackLoses(s: System, k: nat, rid: u16, position: u32, a: Frame, cap: nat) returns (u: System)
    requires Tracks(s, false) && Speaking(s, k) && s.sender.slots[k].rid == rid
    requires position <= s.nodes[rid].r.last && s.sender.oldest <= position + 1 && s.sender.Latest() < MAX_U32
    requires cap >= FrameLength(DATA) && s.sender.seqNo + (s.nodes[rid].r.last - position) <= MAX_U16
    requires a in s.net && AcksBeyond(s.sender.cfg, a, rid, position)
    ensures Reaches(Step, Loose, FallBack(s, rid, position), u) && Loses(u, rid)
  {
    var t := FallBack(s, rid, position);
    assert FrameTracks(s, a, false) && NodeOk(s.sender.log, s.nodes[rid]);
    FallBackState(s, k, rid, position);
    ReachesSelf(Step, Loose, t);
    var lone := Isolate(Loose, t, t, k, 0);
    AloneSynced(lone, k);
    u := StaleAckOvertakes(t, lone, k, a, 0, cap);
    assert u.sender.slots[k].active;
  }

  /**
   Exactly when falling back is dangerous, for any number of receivers: some
   later run loses an operation the receiver needs if and only if an ACK for
   an operation beyond the position is still under way. There must be enough
   sequence numbers left to send again what the receiver fell back over.
   */
  lemma FallBackExactly(s: System, k: nat, rid: u16, position: u32, cap: nat)
    requires Tracks(s, false) && Speaking(s, k) && s.sender.slots[k].rid == rid
    requires position <= s.nodes[rid].r.last && s.sender.oldest <= position + 1 && s.sender.Latest() < MAX_U32
    requires cap >= FrameLength(DATA) && s.sender.seqNo + (s.nodes[rid].r.last - position) <= MAX_U16
    ensures (exists u :: Reaches(Step, Loose, FallBack(s, rid, position), u) && Loses(u, rid)) <==>
              exists a :: a in s.net && AcksBeyond(s.sender.cfg, a, rid, position)
  {
    var t := FallBack(s, rid, position);
    if a :| a in s.net && AcksBeyond(s.sender.cfg, a, rid, position) {
      var u := FallBackLoses(s, k, rid, position, a, cap);
    } else {
      FallBackTracks(s, rid, position);
      forall u | Reaches(Step, Loose, t, u) ensures !Loses(u, rid) {
        TrackedNeverLoses(t, u, rid);
      }
    }
  }

  /** Applying an operation puts such an ACK under way: falling back behind it is dangerous from then on. */
  lemma ApplyingAcknowledges(s: System, rid: u16, f: Frame, cap: nat, position: u32)
    requires Enabled(s, DataTo(rid, f, cap, R.Succeeds)) && s.nodes[rid].r.id == rid
    requires f.header.sender == s.sender.cfg.id && s.nodes[rid].r.stream == s.sender.cfg.stream
    ensures var t := Step(s, DataTo(rid, f, cap, R.Succeeds));
            t.nodes[rid].r.last > s.nodes[rid].r.last && position < t.nodes[rid].r.last ==>
              exists a :: a in t.net && AcksBeyond(t.sender.cfg, a, rid, position)
  {
    R.ApplyIsAtomic(s.nodes[rid].r, f, cap, R.Succeeds);
    R.AnswersTellPosition(s.nodes[rid].r, f, cap, R.Succeeds);
    var t := Step(s, DataTo(rid, f, cap, R.Succeeds));
    if t.nodes[rid].r.last > s.nodes[rid].r.last && position < t.nodes[rid].r.last {
      var a := R.HandleData(s.nodes[rid].r, f, cap, R.Succeeds).reply.value;
      assert a in t.net && AcksBeyond(t.sender.cfg, a, rid, position);
    }
  }
}
