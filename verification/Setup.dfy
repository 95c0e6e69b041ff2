/** From initialisation to a system in step: registering receivers, filling the log, announcing it. */
module Setup {
  import opened Words
  import opened OpFrames
  import opened Runs
  import S = SenderModel
  import I = SenderInvariant
  import opened Replication
  import opened Truncation
  import opened Convergence

  /** Receiver `rid` is there and accepts this sender's frames. */
  predicate Listens(s: System, rid: u16) {
    && rid in s.nodes
    && var r := s.nodes[rid].r;
       r.id == rid && r.stream == s.sender.cfg.stream && (r.expectedSender == 0 || r.expectedSender == s.sender.cfg.id)
  }

  /** What an application does before and between the rounds of the loop. */
  predicate Prepares(s: System, e: Event) {
    match e
    case Local(call) =>
      (match call
       case EnqueueEvent(_) => true
       case ListsEvent(_, _) => true
       case RegisterEvent(rid, acked) =>
         Listens(s, rid) && acked == s.nodes[rid].r.last && S.Reclaim(s.sender).oldest <= acked + 1
       case _ => false)
    case SendBeacon(_) => true
    case BeaconTo(_, _, _) => true
    case ToSender(_, _) => true
    case _ => false
  }

  lemma InitialSynced(s: System)
    requires NoRegistrations(s) && s.sender.cfg.id != 0 && s.sender.cfg.stream != 0
    ensures Synced(s)
  {}

  lemma EnqueueKeepsSync(s: System, call: S.Event)
    requires Synced(s) && Enabled(s, Local(call)) && (call.EnqueueEvent? || call.ListsEvent?)
    ensures Synced(Step(s, Local(call)))
  {
    var t := Step(s, Local(call));
    SafeLocal(s, call);
    EnqueueKeepsSlots(s.sender, call);
    forall i | 0 <= i < |t.sender.slots| ensures SlotSynced(t, t.sender.slots[i]) {
      assert SlotSynced(s, s.sender.slots[i]);
    }
  }

  lemma RegisterKeepsSync(s: System, rid: u16, acked: u32)
    requires Synced(s) && Prepares(s, Local(S.RegisterEvent(rid, acked)))
    ensures Synced(Step(s, Local(S.RegisterEvent(rid, acked))))
  {
    var t := Step(s, Local(S.RegisterEvent(rid, acked)));
    SafeLocal(s, S.RegisterEvent(rid, acked));
    ReclaimKeepsSlots(s.sender);
    forall i | 0 <= i < |t.sender.slots| ensures SlotSynced(t, t.sender.slots[i]) {
      assert SlotSynced(s, s.sender.slots[i]) && I.SlotOk(s.sender, s.sender.slots[i]);
    }
  }

  /** An idle slot takes no ACK or NACK, and a REQUEST only resets its deadline. */
  lemma FramesKeepSync(s: System, f: Frame, now: u64)
    requires Synced(s) && f in s.net
    ensures Synced(Step(s, ToSender(f, now)))
  {
    var t, k := Step(s, ToSender(f, now)), S.Addressed(s.sender, f);
    SafeToSender(s, f, now);
    if k < |s.sender.slots| {
      assert SlotSynced(s, s.sender.slots[k]);
    }
    forall i | 0 <= i < |t.sender.slots| ensures SlotSynced(t, t.sender.slots[i]) {
      assert SlotSynced(s, s.sender.slots[i]);
    }
  }

  lemma BeaconKeepsSync(s: System, rid: u16, f: Frame, cap: nat)
    requires Synced(s) && Enabled(s, BeaconTo(rid, f, cap))
    ensures Synced(Step(s, BeaconTo(rid, f, cap)))
  {
    var t := Step(s, BeaconTo(rid, f, cap));
    SafeBeaconTo(s, rid, f, cap);
    forall i | 0 <= i < |t.sender.slots| ensures SlotSynced(t, t.sender.slots[i]) {
      assert SlotSynced(s, s.sender.slots[i]);
    }
  }

  lemma AnnouncingKeepsSync(s: System, cap: nat)
    requires Synced(s)
    ensures Synced(Step(s, SendBeacon(cap)))
  {
    var t := Step(s, SendBeacon(cap));
    forall i | 0 <= i < |t.sender.slots| ensures SlotSynced(t, t.sender.slots[i]) {
      assert SlotSynced(s, s.sender.slots[i]);
    }
  }

  lemma PreparingKeepsSync(s: System, e: Event)
    requires Synced(s) && Prepares(s, e)
    ensures Synced(Step(s, e))
  {
    if Enabled(s, e) {
      match e
      case Local(call) =>
        if call.RegisterEvent? {
          RegisterKeepsSync(s, call.rid, call.acked);
        } else {
          EnqueueKeepsSync(s, call);
        }
      case SendBeacon(cap) => AnnouncingKeepsSync(s, cap);
      case BeaconTo(rid, f, cap) => BeaconKeepsSync(s, rid, f, cap);
      case ToSender(f, now) => FramesKeepSync(s, f, now);
    }
  }

  /** However an initialised system is set up, it is in step, so the loop converges from there. */
  lemma SetupSynced(s: System, es: seq<Event>)
    requires NoRegistrations(s) && s.sender.cfg.id != 0 && s.sender.cfg.stream != 0 && Always(Step, Prepares, s, es)
    ensures Synced(Run(Step, s, es))
  {
    InitialSynced(s);
    forall s, e | Synced(s) && Prepares(s, e) ensures Synced(Step(s, e)) {
      PreparingKeepsSync(s, e);
    }
    var synced := s => Synced(s);
    RunPreserves(Step, synced, Prepares, s, es);
  }
}
