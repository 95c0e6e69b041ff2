/**
 A slot two or more operations behind its receiver: answers to repeated
 operations name the receiver's own position, so only an old ACK can move it.
 */
module Stalls {
  import opened Words
  import opened OpFrames
  import opened Runs
  import S = SenderModel
  import I = SenderInvariant
  import Scheduling
  import R = Receiver
  import opened Replication
  import opened Truncation
  import opened Convergence
  import opened Isolation

  /** Nobody restarts, resets or unregisters receiver `rid`. */
  predicate Undisturbed(e: Event, rid: u16) {
    match e
    case Restart(other, _) => other != rid
    case Local(call) =>
      (match call
       case ProgressEvent(other, _) => other != rid
       case UnregisterEvent(other) => other != rid
       case _ => true)
    case _ => true
  }

  function Undisturbing(rid: u16): (System, Event) -> bool {
    (s: System, e: Event) => Undisturbed(e, rid)
  }

  /** An ACK of receiver `rid` that the sender `cfg` would take, for the operation after `acked`. */
  predicate AcksNext(cfg: S.Config, f: Frame, rid: u16, acked: u32) {
    AcksBeyond(cfg, f, rid, acked) && f.payload.ackId as int == acked + 1
  }

  /** Slot `k` is behind its receiver by two or more. */
  predicate Behind(s: System, k: nat, rid: u16, acked: u32) {
    && OwnIds(s.nodes) && k < |s.sender.slots| && s.sender.slots[k].active && s.sender.slots[k].rid == rid
    && s.sender.slots[k].acked == acked && rid in s.nodes && s.nodes[rid].r.last >= acked + 2
  }

  /** And nothing can move it: it has given up, or no fitting ACK is under way. */
  ghost predicate Stuck(s: System, k: nat, rid: u16, acked: u32) {
    && Safe(s) && Behind(s, k, rid, acked)
    && (s.sender.slots[k].exhausted || forall f :: f in s.net ==> !AcksNext(s.sender.cfg, f, rid, acked))
  }

  // ---------- Stuck stays stuck ----------

  /** What a step must keep for slot `k` to stay stuck, given that the system stays safe. */
  lemma StaysStuck(s: System, t: System, k: nat, rid: u16, acked: u32)
    requires Stuck(s, k, rid, acked) && Safe(t) && OwnIds(t.nodes) && t.sender.cfg == s.sender.cfg
    requires rid in t.nodes && t.nodes[rid].r.last >= s.nodes[rid].r.last && k < |t.sender.slots|
    requires var slot, after := s.sender.slots[k], t.sender.slots[k];
             after.active && after.rid == slot.rid && after.acked == slot.acked && (slot.exhausted ==> after.exhausted)
    requires forall f :: f in t.net && f !in s.net ==> !AcksNext(s.sender.cfg, f, rid, acked)
    ensures Stuck(t, k, rid, acked)
  {}

  lemma LocalStuck(s: System, k: nat, rid: u16, acked: u32, call: S.Event)
    requires Stuck(s, k, rid, acked) && Enabled(s, Local(call)) && Undisturbed(Local(call), rid)
    ensures Stuck(Step(s, Local(call)), k, rid, acked)
  {
    match call
    case PollEvent(now, cap) => PollStuck(s, k, rid, acked, now, cap);
    case ProgressEvent(other, _) => OthersStuck(s, k, rid, acked, call, other);
    case UnregisterEvent(other) => OthersStuck(s, k, rid, acked, call, other);
    case _ => NewStuck(s, k, rid, acked, call);
  }

  lemma NewStuck(s: System, k: nat, rid: u16, acked: u32, call: S.Event)
    requires Stuck(s, k, rid, acked) && Enabled(s, Local(call)) && !call.PollEvent? && !call.ProgressEvent?
             && !call.UnregisterEvent?
    ensures Stuck(Step(s, Local(call)), k, rid, acked)
  {
    SafeLocal(s, call);
    StaysStuck(s, Step(s, Local(call)), k, rid, acked);
  }

  lemma OthersStuck(s: System, k: nat, rid: u16, acked: u32, call: S.Event, other: u16)
    requires Stuck(s, k, rid, acked) && Enabled(s, Local(call)) && other != rid
    requires call == S.UnregisterEvent(other) || (call.ProgressEvent? && call.rid == other)
    ensures Stuck(Step(s, Local(call)), k, rid, acked)
  {
    SafeLocal(s, call);
    OtherSlot(s, k, other);
    StaysStuck(s, Step(s, Local(call)), k, rid, acked);
  }

  lemma OtherSlot(s: System, k: nat, other: u16)
    requires I.Inv(s.sender) && k < |s.sender.slots| && s.sender.slots[k].active && s.sender.slots[k].rid != other
    ensures S.FindSlot(s.sender.slots, other) != k
  {}

  lemma PollStuck(s: System, k: nat, rid: u16, acked: u32, now: u64, cap: nat)
    requires Stuck(s, k, rid, acked)
    ensures Stuck(Step(s, Local(S.PollEvent(now, cap))), k, rid, acked)
  {
    var t := Step(s, Local(S.PollEvent(now, cap)));
    SafeLocal(s, S.PollEvent(now, cap));
    PollKeepsPositions(s.sender, now, cap);
    if s.sender.slots[k].exhausted {
      Scheduling.PollExhausted(s.sender, now, cap, k);
    }
    if S.Poll(s.sender, now, cap).frame.Some? {
      var i := NextOperationSent(s.sender, now, cap);
    }
    StaysStuck(s, t, k, rid, acked);
  }

  /** The only ACK that would move the slot is not there, and a slot that has given up takes none. */
  lemma RxStuck(s: System, k: nat, rid: u16, acked: u32, f: Frame, now: u64)
    requires Stuck(s, k, rid, acked) && f in s.net
    ensures Stuck(Step(s, ToSender(f, now)), k, rid, acked)
  {
    var t := Step(s, ToSender(f, now));
    SafeToSender(s, f, now);
    assert I.SlotOk(s.sender, s.sender.slots[k]);
    StaysStuck(s, t, k, rid, acked);
  }

  /** What a receiver two or more ahead answers is not the ACK for the next operation. */
  lemma AnswerMovesNothing(
    cfg: S.Config, r: R.State, f: Frame, cap: nat, callback: R.Callback, rid: u16, acked: u32)
    requires f.payload.Data? && Legal(f) && (r.id == rid ==> r.last >= acked + 2)
    ensures var e := R.HandleData(r, f, cap, callback);
            e.state.last >= r.last && (e.reply.Some? ==> !AcksNext(cfg, e.reply.value, rid, acked))
  {
    R.ApplyIsAtomic(r, f, cap, callback);
    R.AnswersTellPosition(r, f, cap, callback);
  }

  lemma DataAnswers(s: System, k: nat, rid: u16, acked: u32, to: u16, f: Frame, cap: nat, callback: R.Callback)
    requires Behind(s, k, rid, acked) && Enabled(s, DataTo(to, f, cap, callback)) && Legal(f)
    ensures var t := Step(s, DataTo(to, f, cap, callback));
            && t.sender == s.sender && OwnIds(t.nodes) && rid in t.nodes && t.nodes[rid].r.last >= s.nodes[rid].r.last
            && forall g :: g in t.net && g !in s.net ==> !AcksNext(s.sender.cfg, g, rid, acked)
  {
    AnswerMovesNothing(s.sender.cfg, s.nodes[to].r, f, cap, callback, rid, acked);
  }

  lemma DataStuck(s: System, k: nat, rid: u16, acked: u32, to: u16, f: Frame, cap: nat, callback: R.Callback)
    requires Stuck(s, k, rid, acked) && Enabled(s, DataTo(to, f, cap, callback))
    ensures Stuck(Step(s, DataTo(to, f, cap, callback)), k, rid, acked)
  {
    SafeDataTo(s, to, f, cap, callback);
    DataAnswers(s, k, rid, acked, to, f, cap, callback);
    StaysStuck(s, Step(s, DataTo(to, f, cap, callback)), k, rid, acked);
  }

  lemma BeaconStuck(s: System, k: nat, rid: u16, acked: u32, to: u16, f: Frame, cap: nat)
    requires Stuck(s, k, rid, acked) && Enabled(s, BeaconTo(to, f, cap))
    ensures Stuck(Step(s, BeaconTo(to, f, cap)), k, rid, acked)
  {
    SafeBeaconTo(s, to, f, cap);
    StaysStuck(s, Step(s, BeaconTo(to, f, cap)), k, rid, acked);
  }

  lemma RestartStuck(s: System, k: nat, rid: u16, acked: u32, other: u16, position: u32)
    requires Stuck(s, k, rid, acked) && Enabled(s, Restart(other, position)) && other != rid
    ensures Stuck(Step(s, Restart(other, position)), k, rid, acked)
  {
    SafeRestart(s, other, position);
    StaysStuck(s, Step(s, Restart(other, position)), k, rid, acked);
  }

  lemma StuckStep(s: System, k: nat, rid: u16, acked: u32, e: Event)
    requires Stuck(s, k, rid, acked) && Undisturbed(e, rid)
    ensures Stuck(Step(s, e), k, rid, acked)
  {
    if Enabled(s, e) {
      match e
      case Local(call) => LocalStuck(s, k, rid, acked, call);
      case SendBeacon(_) => StaysStuck(s, Step(s, e), k, rid, acked);
      case ToSender(f, now) => RxStuck(s, k, rid, acked, f, now);
      case DataTo(to, f, cap, callback) => DataStuck(s, k, rid, acked, to, f, cap, callback);
      case BeaconTo(to, f, cap) => BeaconStuck(s, k, rid, acked, to, f, cap);
      case Restart(other, position) => RestartStuck(s, k, rid, acked, other, position);
    }
  }

  lemma StuckForever(s: System, u: System, k: nat, rid: u16, acked: u32)
    requires Stuck(s, k, rid, acked) && Reaches(Step, Undisturbing(rid), s, u)
    ensures Stuck(u, k, rid, acked)
  {
    var es :| Always(Step, Undisturbing(rid), s, es) && Run(Step, s, es) == u;
    var stuck := s => Stuck(s, k, rid, acked);
    forall s, e | Stuck(s, k, rid, acked) && Undisturbing(rid)(s, e) ensures Stuck(Step(s, e), k, rid, acked) {
      StuckStep(s, k, rid, acked, e);
    }
    RunPreserves(Step, stuck, Undisturbing(rid), s, es);
  }

  // ---------- An old ACK moves it ----------

  lemma WaitingMoves(s: System, k: nat, rid: u16, acked: u32, a: Frame, now: u64)
    requires Safe(s) && Behind(s, k, rid, acked) && s.sender.slots[k].waiting
    requires a in s.net && AcksNext(s.sender.cfg, a, rid, acked)
    ensures var t := Step(s, ToSender(a, now)); k < |t.sender.slots| && t.sender.slots[k].acked as int == acked + 1
  {
    SyncedAck(s.sender, k, now, a);
  }

  /** With no other receiver, a poll sends to slot `k`. */
  lemma LonePollServes(s: System, k: nat, rid: u16, acked: u32)
    requires Safe(s) && Behind(s, k, rid, acked) && S.Alone(s.sender, k) && s.sender.oldest <= acked + 1
    requires !s.sender.slots[k].waiting && !s.sender.slots[k].exhausted
    requires s.sender.seqNo < MAX_U16 && s.sender.cfg.id != 0 && s.sender.cfg.stream != 0
    ensures var p := S.Poll(s.sender, 0, FrameLength(DATA)).state; k < |p.slots| && p.slots[k].waiting
  {
    assert NodeOk(s.sender.log, s.nodes[rid]);
    assert S.Ready(s.sender, k, 0);
    Scheduling.PollSendsIffReady(s.sender, 0, FrameLength(DATA));
    var i := Scheduling.PollServesFirstReady(s.sender, 0, FrameLength(DATA));
    assert i == k;
  }

  /** A slot that has not given up can be brought to wait for the operation the ACK is for. */
  lemma BroughtToWait(s: System, k: nat, rid: u16, acked: u32) returns (u: System)
    requires Safe(s) && Behind(s, k, rid, acked) && !s.sender.slots[k].waiting && !s.sender.slots[k].exhausted
    requires s.sender.oldest <= acked + 1 && s.sender.seqNo < MAX_U16 && s.sender.cfg.id != 0 && s.sender.cfg.stream != 0
    ensures Reaches(Step, Undisturbing(rid), s, u) && Safe(u) && Behind(u, k, rid, acked) && u.sender.slots[k].waiting
    ensures s.net <= u.net && u.sender.cfg == s.sender.cfg
  {
    ReachesSelf(Step, Undisturbing(rid), s);
    var lone := Isolate(Undisturbing(rid), s, s, k, 0);
    var poll := S.PollEvent(0, FrameLength(DATA));
    LonePollServes(lone, k, rid, acked);
    SafeLocal(lone, poll);
    PollKeepsPositions(lone.sender, 0, FrameLength(DATA));
    ReachesNext(Step, Undisturbing(rid), s, lone, Local(poll));
    u := Step(lone, Local(poll));
  }

  lemma OldAckMoves(s: System, k: nat, rid: u16, acked: u32, a: Frame) returns (u: System)
    requires Safe(s) && Behind(s, k, rid, acked) && !s.sender.slots[k].exhausted
    requires s.sender.oldest <= acked + 1 && s.sender.seqNo < MAX_U16 && s.sender.cfg.id != 0 && s.sender.cfg.stream != 0
    requires a in s.net && AcksNext(s.sender.cfg, a, rid, acked)
    ensures Reaches(Step, Undisturbing(rid), s, u) && k < |u.sender.slots| && u.sender.slots[k].acked != acked
  {
    var w := s;
    if s.sender.slots[k].waiting {
      ReachesSelf(Step, Undisturbing(rid), s);
    } else {
      w := BroughtToWait(s, k, rid, acked);
    }
    WaitingMoves(w, k, rid, acked, a, 0);
    ReachesNext(Step, Undisturbing(rid), s, w, ToSender(a, 0));
    u := Step(w, ToSender(a, 0));
  }

  /**
   A slot two or more behind its receiver moves in some later run, one in
   which nobody restarts, resets or unregisters that receiver, if and only if
   it has not given up and an old ACK for its next operation is under way.
   */
  lemma MovesExactly(s: System, k: nat, rid: u16, acked: u32)
    requires Safe(s) && Behind(s, k, rid, acked)
    requires s.sender.oldest <= acked + 1 && s.sender.seqNo < MAX_U16 && s.sender.cfg.id != 0 && s.sender.cfg.stream != 0
    ensures (exists u ::
               Reaches(Step, Undisturbing(rid), s, u) && k < |u.sender.slots| && u.sender.slots[k].acked != acked) <==>
              !s.sender.slots[k].exhausted && exists a :: a in s.net && AcksNext(s.sender.cfg, a, rid, acked)
  {
    if Stuck(s, k, rid, acked) {
      forall u | Reaches(Step, Undisturbing(rid), s, u) ensures k < |u.sender.slots| && u.sender.slots[k].acked == acked {
        StuckForever(s, u, k, rid, acked);
      }
    } else {
      var a :| a in s.net && AcksNext(s.sender.cfg, a, rid, acked);
      var u := OldAckMoves(s, k, rid, acked, a);
    }
  }
}
