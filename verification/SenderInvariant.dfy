/** What every call of the sender's interface keeps. */
module SenderInvariant {
  import opened Words
  import opened OpFrames
  import opened Operations
  import opened SenderModel

  /** An active waiting slot awaits the operation after its last acknowledged one, and the log still holds it. */
  predicate SlotOk(s: State, slot: Slot) {
    && slot.retries <= s.cfg.maxRetries
    && (slot.active ==> slot.rid != 0)
    && (!slot.active || slot.exhausted ==> !slot.waiting)
    && (!slot.active ==> !slot.exhausted)
    && (!slot.waiting ==> slot.inflight == 0 && slot.retries == 0)
    && (slot.waiting ==> slot.inflight == slot.acked + 1 && s.oldest <= slot.inflight <= s.Latest())
  }

  predicate DistinctReceivers(slots: seq<Slot>) {
    forall i, j :: 0 <= i < j < |slots| && slots[i].active && slots[j].active ==> slots[i].rid != slots[j].rid
  }

  predicate LogOk(s: State) {
    && 1 <= s.oldest <= s.Latest() + 1
    && s.Retained() <= s.cfg.capacity
    && forall op :: op in s.log ==> ValidOp(op)
  }

  predicate Inv(s: State) {
    && LogOk(s)
    && (forall i :: 0 <= i < |s.slots| ==> SlotOk(s, s.slots[i]))
    && DistinctReceivers(s.slots)
  }

  lemma FindsSlot(s: State, i: nat)
    requires Inv(s) && i < |s.slots| && s.slots[i].active
    ensures FindSlot(s.slots, s.slots[i].rid) == i
  {
    FindSlotFirst(s.slots, s.slots[i].rid);
  }

  lemma InitInv(cfg: Config, receivers: nat)
    requires receivers <= 0x8000_0000
    ensures Inv(Init(cfg, receivers))
  {}

  /** Reclaiming never drops an operation that an active slot waits for or will ask for next. */
  lemma ReclaimInv(s: State)
    requires Inv(s)
    ensures Inv(Reclaim(s))
    ensures forall i :: 0 <= i < |s.slots| && s.slots[i].active && s.oldest <= Inc32(s.slots[i].acked)
              ==> Reclaim(s).oldest <= Inc32(s.slots[i].acked)
  {
    var floor := Floor(s.slots, Inc32(s.Latest()));
    FloorIsLowest(s.slots, Inc32(s.Latest()));
    forall i | 0 <= i < |s.slots| ensures SlotOk(Reclaim(s), s.slots[i]) {
      var slot := s.slots[i];
      if slot.active {
        assert floor <= Inc32(slot.acked);
      }
    }
  }

  lemma AppendInv(s: State, ops: seq<Op>)
    requires Inv(s) && s.Retained() + |ops| <= s.cfg.capacity && |s.log| + |ops| <= MAX_U32
    requires forall op :: op in ops ==> ValidOp(op)
    ensures Inv(s.(log := s.log + ops))
  {}

  /** Replacing one slot by a good one with the same receiver keeps the invariant. */
  lemma WithSlotInv(s: State, i: nat, slot: Slot)
    requires Inv(s) && i < |s.slots| && SlotOk(s, slot)
    requires slot.active ==> forall j :: 0 <= j < |s.slots| && j != i && s.slots[j].active ==> s.slots[j].rid != slot.rid
    ensures Inv(WithSlot(s, i, slot))
  {}

  lemma EnqueueInv(s: State, op: Op)
    requires Inv(s) && s.Latest() < MAX_U32 && (op.opType == ADD || op.opType == REMOVE)
    ensures Inv(Enqueue(s, op).0)
  {
    ReclaimInv(s);
    if Enqueue(s, op).1 {
      AppendInv(Reclaim(s), [op]);
    }
  }

  lemma OpsValid(removes: seq<u32>, adds: seq<u32>)
    requires InRange(removes) && InRange(adds)
    ensures forall op :: op in Ops(removes, adds) ==> ValidOp(op)
  {
    forall i | 0 <= i < |removes| ensures Each(REMOVE, removes)[i] == Op(REMOVE, removes[i]) {
      EachAt(REMOVE, removes, i);
    }
    forall i | 0 <= i < |adds| ensures Each(ADD, adds)[i] == Op(ADD, adds[i]) {
      EachAt(ADD, adds, i);
    }
  }

  lemma ListsInv(s: State, removes: seq<u32>, adds: seq<u32>)
    requires Inv(s)
    ensures Inv(EnqueueLists(s, removes, adds).0)
  {
    if |removes| + |adds| > 0 && AcceptsLists(s, removes, adds) {
      var ops := Ops(removes, adds);
      OpsValid(removes, adds);
      AppendAllInv(s, ops);
    }
  }

  lemma AppendAllInv(s: State, ops: seq<Op>)
    requires Inv(s) && ops != [] && s.Retained() + |ops| <= s.cfg.capacity && |s.log| + |ops| <= MAX_U32
    requires forall op :: op in ops ==> ValidOp(op)
    ensures Inv(Appended(s, ops))
  {
    var all, n := s.log + ops, |ops| - 1;
    assert all[..|all| - 1] == s.log + ops[..n];
    AppendInv(s, ops[..n]);
    var t := s.(log := s.log + ops[..n]);
    ReclaimInv(t);
    assert all == t.log + [ops[n]];
    AppendInv(Reclaim(t), [ops[n]]);
  }

  lemma RegisterInv(s: State, rid: u16, acked: u32)
    requires Inv(s)
    ensures Inv(Register(s, rid, acked).0)
  {
    ReclaimInv(s);
    var r := Reclaim(s);
    var i := FreeSlot(r.slots);
    if rid != 0 && FindSlot(r.slots, rid) == |r.slots| && i < |r.slots| {
      FindSlotFirst(r.slots, rid);
      WithSlotInv(r, i, r.slots[i].(active := true, rid := rid, acked := acked, exhausted := false));
    }
  }

  lemma ProgressInv(s: State, rid: u16, acked: u32)
    requires Inv(s)
    ensures Inv(SetProgress(s, rid, acked).0)
  {
    var i := FindSlot(s.slots, rid);
    if i < |s.slots| {
      var slot := Idle(s.slots[i]).(acked := acked);
      WithSlotInv(s, i, slot);
      ReclaimInv(WithSlot(s, i, slot));
    }
  }

  lemma UnregisterInv(s: State, rid: u16)
    requires Inv(s)
    ensures Inv(Unregister(s, rid).0)
  {
    var i := FindSlot(s.slots, rid);
    if i < |s.slots| {
      var slot := Idle(s.slots[i]).(active := false);
      WithSlotInv(s, i, slot);
      ReclaimInv(WithSlot(s, i, slot));
    }
  }

  lemma {:induction false} SweptInv(s: State, start: nat, k: nat, now: u64)
    requires Inv(s) && start < |s.slots| && k <= |s.slots|
    ensures Inv(Swept(s, start, k, now))
  {
    if k > 0 {
      var i := Ahead(|s.slots|, start, k - 1);
      var t := Swept(s, start, k - 1, now);
      SweptInv(s, start, k - 1, now);
      SweptAt(s, start, k - 1, now, i);
      assert t.slots[i] == s.slots[i];
      if TurnOf(s, s.slots[i], now) == Expire {
        WithSlotInv(t, i, Expired(t.slots[i]));
      }
    }
  }

  lemma EmitInv(s: State, i: nat, opId: u32, now: u64, cap: nat)
    requires Inv(s) && i < |s.slots| && s.slots[i].active && opId == s.slots[i].acked + 1
    ensures Inv(Emit(s, i, opId, now, cap).state)
  {
    var e := Emit(s, i, opId, now, cap);
    if e.frame.Some? {
      var slot := s.slots[i].(inflight := opId, waiting := true, exhausted := false, due := Deadline(now, s.cfg.timeout));
      WithSlotInv(s, i, slot);
    }
  }

  lemma ServeInv(s: State, i: nat, now: u64, cap: nat)
    requires Inv(s) && i < |s.slots| && Ready(s, i, now)
    ensures Inv(Serve(s, i, now, cap).state)
  {
    var slot := s.slots[i];
    assert SlotOk(s, slot);
    if slot.waiting {
      var retried := slot.(retries := slot.retries + 1);
      WithSlotInv(s, i, retried);
      EmitInv(WithSlot(s, i, retried), i, slot.inflight, now, cap);
    } else {
      var target := Inc32(slot.acked);
      EmitInv(s, i, target, now, cap);
      var e := Emit(s, i, target, now, cap);
      if e.frame.Some? {
        WithSlotInv(e.state, i, e.state.slots[i].(retries := 0));
      }
    }
  }

  lemma PollInv(s: State, now: u64, cap: nat)
    requires Inv(s)
    ensures Inv(Poll(s, now, cap).state)
  {
    ReclaimInv(s);
    if s.slots != [] {
      var r, n, k := Reclaim(s), |s.slots|, Chosen(s, now);
      SweptInv(r, Start(s), k, now);
      if k < n {
        SweptAt(r, Start(s), k, now, Ahead(n, Start(s), k));
        ServeInv(Swept(r, Start(s), k, now), Ahead(n, Start(s), k), now, cap);
      }
    }
  }

  lemma RxInv(s: State, now: u64, f: Frame)
    requires Inv(s)
    ensures Inv(HandleRx(s, now, f).0)
  {
    var i := Addressed(s, f);
    if i < |s.slots| {
      var slot := s.slots[i];
      match f.payload
      case Request(_, next) => WithSlotInv(s, i, slot.(due := now));
      case Ack(_, ackId) =>
        if AcceptsAck(slot, ackId) {
          WithSlotInv(s, i, Idle(slot).(acked := ackId));
          ReclaimInv(WithSlot(s, i, Idle(slot).(acked := ackId)));
        }
      case Nack(_, _, _, expected) =>
        if AcceptsNack(s, slot, expected) {
          WithSlotInv(s, i, Idle(slot).(due := now));
          ReclaimInv(WithSlot(s, i, Idle(slot).(due := now)));
        }
      case Beacon(_, _) =>
      case Data(_, _, _, _) =>
    }
  }

  /** The public enqueue calls pass only ADD and REMOVE. */
  predicate WellFormed(e: Event) {
    e.EnqueueEvent? ==> e.op.opType == ADD || e.op.opType == REMOVE
  }

  lemma StepInv(s: State, e: Event)
    requires Inv(s) && WellFormed(e)
    ensures Inv(Step(s, e))
  {
    match e
    case EnqueueEvent(op) =>
      if s.Latest() < MAX_U32 {
        EnqueueInv(s, op);
      }
    case ListsEvent(removes, adds) => ListsInv(s, removes, adds);
    case RegisterEvent(rid, acked) => RegisterInv(s, rid, acked);
    case ProgressEvent(rid, acked) => ProgressInv(s, rid, acked);
    case UnregisterEvent(rid) => UnregisterInv(s, rid);
    case PollEvent(now, cap) => PollInv(s, now, cap);
    case RxEvent(now, f) => RxInv(s, now, f);
  }
}
