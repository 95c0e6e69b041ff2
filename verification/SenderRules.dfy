/** What every call does to the sender, in terms of its fields, the arguments and the clock alone. */
module SenderRules {
  import opened Words
  import opened Framing
  import opened OpFrames
  import opened Operations
  import opened SenderModel
  import opened SenderInvariant
  import opened Scheduling

  // ---------- History ----------

  /** Active slot `i` still needs operation `id` or an earlier one. */
  predicate Needs(s: State, i: nat, id: int) {
    i < |s.slots| && s.slots[i].active && (s.slots[i].acked as int + 1) % 0x1_0000_0000 <= id
  }

  predicate NeedsLess(s: State, i: nat, id: int) {
    i < |s.slots| && s.slots[i].active && (s.slots[i].acked as int + 1) % 0x1_0000_0000 < id
  }

  /** Reclaiming moves the oldest retained id, and only it, as far as no active slot needs less, at most past the latest. */
  lemma ReclaimRule(s: State)
    requires Inv(s)
    ensures var t := Reclaim(s);
            && t == s.(oldest := t.oldest) && t.oldest >= s.oldest
            && (t.oldest > s.oldest ==> t.oldest <= |s.log| + 1 && forall i: nat :: !NeedsLess(s, i, t.oldest))
            && (|s.log| < MAX_U32 && s.oldest < t.oldest <= |s.log| ==> exists i: nat :: Needs(s, i, t.oldest))
            && (|s.log| < MAX_U32 && s.oldest <= |s.log| ==>
                  (t.oldest == s.oldest <==> exists i: nat :: Needs(s, i, s.oldest)))
  {
    var top := Inc32(s.Latest());
    FloorIsLowest(s.slots, top);
    forall i: nat | i < |s.slots| ensures (s.slots[i].acked as int + 1) % 0x1_0000_0000 == Inc32(s.slots[i].acked) {
      Wraps(s.slots[i].acked);
    }
    var floor := Floor(s.slots, top);
    if floor != top {
      var i :| 0 <= i < |s.slots| && s.slots[i].active && floor == Inc32(s.slots[i].acked);
      assert Needs(s, i, floor);
      assert floor <= s.oldest ==> Needs(s, i, s.oldest);
    }
  }

  lemma Wraps(x: u32)
    ensures (x as int + 1) % 0x1_0000_0000 == Inc32(x)
  {}

  /** An operation is legal, and the ring has room for it once what nobody needs is dropped. */
  lemma EnqueueRule(s: State, op: Op)
    requires Inv(s) && |s.log| < MAX_U32
    ensures var (t, ok) := Enqueue(s, op);
            var legal := op.opType != 0 && op.value <= 99_999_999;
            && (ok <==> legal && |s.log| + 1 - Reclaim(s).oldest < s.cfg.capacity)
            && t == if ok then Reclaim(s).(log := s.log + [op]) else if legal then Reclaim(s) else s
  {}

  // ---------- Lists ----------

  /** When a list is accepted: it is empty, or there is room and ids are left for all of it and every value is legal. */
  lemma ListsAcceptedExactly(s: State, removes: seq<u32>, adds: seq<u32>)
    ensures EnqueueLists(s, removes, adds).1 <==>
              || (removes == [] && adds == [])
              || (&& |removes| + |adds| <= s.cfg.capacity - (|s.log| + 1 - s.oldest)
                  && |s.log| + |removes| + |adds| <= 0xFFFF_FFFF
                  && (forall i :: 0 <= i < |removes| ==> removes[i] <= 99_999_999)
                  && forall i :: 0 <= i < |adds| ==> adds[i] <= 99_999_999)
  {}

  /** The operations a list stands for: a REMOVE for each of the first list, then an ADD for each of the second. */
  lemma ListOperations(removes: seq<u32>, adds: seq<u32>, k: nat)
    requires k < |removes| + |adds|
    ensures Ops(removes, adds)[k] == if k < |removes| then Op(2, removes[k]) else Op(1, adds[k - |removes|])
  {
    if k < |removes| {
      EachAt(REMOVE, removes, k);
    } else {
      EachAt(ADD, adds, k - |removes|);
    }
  }

  /** Somebody needs an id no later than the next one, so nothing will be reclaimed while operations are added. */
  predicate Pinned(s: State) {
    Reclaim(s) == s && exists i: nat :: i < |s.slots| && s.slots[i].active && Inc32(s.slots[i].acked) <= |s.log| + 1
  }

  lemma {:induction false} FloorPinned(slots: seq<Slot>, low: u32, high: u32, i: nat)
    requires low <= high && i < |slots| && slots[i].active && Inc32(slots[i].acked) <= low
    ensures Floor(slots, high) == Floor(slots, low)
  {
    FloorIsLowest(slots, low);
    FloorIsLowest(slots, high);
    FloorMonotone(slots, low, high);
    if Floor(slots, high) != high {
      var j :| 0 <= j < |slots| && slots[j].active && Floor(slots, high) == Inc32(slots[j].acked);
    }
  }

  /** What has not been inserted yet is inserted without reclaiming. */
  lemma PinnedKeeps(s: State, log: Log)
    requires Inv(s) && Pinned(s) && |s.log| <= |log| < MAX_U32
    ensures Reclaim(s.(log := log)) == s.(log := log)
  {
    var i: nat :| i < |s.slots| && s.slots[i].active && Inc32(s.slots[i].acked) <= |s.log| + 1;
    FloorPinned(s.slots, Inc32(s.Latest()), Inc32(|log|), i);
  }

  lemma {:induction false} PinnedOneByOne(s: State, ops: seq<Op>)
    requires Inv(s) && Pinned(s) && |s.log| + |ops| <= MAX_U32 && forall i :: 0 <= i < |ops| ==> !RejectOp(ops[i])
    ensures var (t, ok) := OneByOne(s, ops);
            && (ok <==> ops == [] || |ops| <= s.cfg.capacity - s.Retained())
            && (ok ==> t == s.(log := s.log + ops))
  {
    if ops != [] {
      var n := |ops| - 1;
      PinnedOneByOne(s, ops[..n]);
      assert s.log + ops[..n] + [ops[n]] == s.log + ops;
      assert n == 0 ==> s.log + ops[..n] == s.log;
      if OneByOne(s, ops[..n]).1 {
        PinnedKeeps(s, s.log + ops[..n]);
      }
    }
  }

  /**
   With nothing to reclaim, while some receiver still needs an id up to the next
   one, a list of legal values within the ids left is accepted exactly if
   inserting its operations one by one gets to the end.
   */
  lemma ListsLikeOneByOne(s: State, removes: seq<u32>, adds: seq<u32>)
    requires Inv(s) && Pinned(s) && |s.log| + |removes| + |adds| <= MAX_U32 && InRange(removes) && InRange(adds)
    ensures EnqueueLists(s, removes, adds).1 <==> OneByOne(s, Ops(removes, adds)).1
  {
    LegalOps(removes, adds);
    PinnedOneByOne(s, Ops(removes, adds));
  }

  // ---------- Slots ----------

  predicate Registered(s: State, rid: u16, i: nat) {
    i < |s.slots| && s.slots[i].active && s.slots[i].rid == rid
  }

  lemma FoundRule(s: State, rid: u16)
    ensures var i := FindSlot(s.slots, rid);
            if exists j: nat :: Registered(s, rid, j) then Registered(s, rid, i) else i == |s.slots|
  {
    FindSlotFirst(s.slots, rid);
    if i: nat :| Registered(s, rid, i) {
      assert i >= FindSlot(s.slots, rid);
    }
    assert FindSlot(s.slots, rid) < |s.slots| ==> Registered(s, rid, FindSlot(s.slots, rid));
  }

  /** The first free slot takes a receiver that has none; history is reclaimed first. */
  lemma RegisterRule(s: State, rid: u16, acked: u32)
    requires Inv(s)
    ensures var (t, ok) := Register(s, rid, acked);
            && (ok <==> rid != 0 && exists i: nat :: Registered(s, rid, i) || (i < |s.slots| && !s.slots[i].active))
            && if rid == 0 then t == s
               else if !ok || exists i: nat :: Registered(s, rid, i) then t == Reclaim(s)
               else
                 exists i: nat :: i < |s.slots| && !s.slots[i].active && (forall j :: 0 <= j < i ==> s.slots[j].active) &&
                   t == Reclaim(s).(slots := s.slots[i := Slot(rid, acked, 0, s.slots[i].due, false, 0, true, false)])
  {
    FoundRule(s, rid);
    FreeSlotFirst(s.slots);
    var i := FreeSlot(s.slots);
    if i < |s.slots| {
      assert SlotOk(s, s.slots[i]);
    }
  }

  /** A reset puts the slot at a position with nothing in flight, and revives it. */
  lemma ProgressRule(s: State, rid: u16, acked: u32, i: nat)
    requires Inv(s) && Registered(s, rid, i)
    ensures var slot := s.slots[i];
            SetProgress(s, rid, acked)
            == (Reclaim(s.(slots := s.slots[i := Slot(rid, acked, 0, slot.due, false, 0, true, false)])), true)
  {
    FindsSlot(s, i);
  }

  lemma UnregisterRule(s: State, rid: u16, i: nat)
    requires Inv(s) && Registered(s, rid, i)
    ensures var slot := s.slots[i];
            Unregister(s, rid)
            == (Reclaim(s.(slots := s.slots[i := Slot(rid, slot.acked, 0, slot.due, false, 0, false, false)])), true)
  {
    FindsSlot(s, i);
  }

  lemma UnknownReceiver(s: State, rid: u16, acked: u32)
    requires forall i: nat :: !Registered(s, rid, i)
    ensures SetProgress(s, rid, acked) == (s, false) && Unregister(s, rid) == (s, false)
  {
    FoundRule(s, rid);
  }

  // ---------- Inbound frames ----------

  /** The frame is for this sender and stream, from the receiver of active slot `i`. */
  predicate ForSlot(s: State, f: Frame, i: nat) {
    && i < |s.slots| && s.slots[i].active && s.slots[i].rid == f.header.sender
    && f.header.receiver == s.cfg.id && f.payload.stream == s.cfg.stream
  }

  /** What the slot has to be like for a REQUEST, ACK or NACK to be taken; other frames never are. */
  predicate Takes(s: State, slot: Slot, p: Payload) {
    match p
    case Request(_, next) =>
      !slot.exhausted && next as int == slot.acked + 1 && s.oldest <= next <= |s.log| + 1 && |s.log| < 0xFFFF_FFFF
    case Ack(_, ackId) => slot.waiting && ackId as int == slot.acked + 1
    case Nack(_, _, _, expected) => slot.waiting && expected as int == slot.acked + 1 && |s.log| < 0xFFFF_FFFF
    case _ => false
  }

  lemma AddressedRule(s: State, f: Frame, i: nat)
    requires Inv(s) && ForSlot(s, f, i)
    ensures Addressed(s, f) == i
  {
    FindsSlot(s, i);
  }

  lemma NotAddressed(s: State, f: Frame)
    requires forall i: nat :: !ForSlot(s, f, i)
    ensures Addressed(s, f) == |s.slots|
  {
    var i := FindSlot(s.slots, f.header.sender);
    assert !ForSlot(s, f, i);
  }

  /** A frame is taken exactly if it is for an active slot that can take it; otherwise nothing changes. */
  lemma FrameTakenExactly(s: State, now: u64, f: Frame)
    requires Inv(s)
    ensures HandleRx(s, now, f).1 <==> exists i: nat :: ForSlot(s, f, i) && Takes(s, s.slots[i], f.payload)
    ensures !HandleRx(s, now, f).1 ==> HandleRx(s, now, f).0 == s
  {
    if i: nat :| ForSlot(s, f, i) {
      AddressedRule(s, f, i);
      assert SlotOk(s, s.slots[i]);
      forall j: nat | ForSlot(s, f, j) ensures j == i {
        AddressedRule(s, f, j);
      }
    } else {
      NotAddressed(s, f);
    }
  }

  /**
   What a frame that is taken does: a REQUEST makes the slot due, an ACK moves
   it on and leaves it idle, a NACK leaves it idle where it is and due. The
   latter two then reclaim. Nothing else changes.
   */
  lemma FrameTakenEffect(s: State, now: u64, f: Frame, i: nat)
    requires Inv(s) && ForSlot(s, f, i) && Takes(s, s.slots[i], f.payload)
    ensures var slot := s.slots[i];
            HandleRx(s, now, f).0 ==
              match f.payload
              case Request(_, _) => s.(slots := s.slots[i := slot.(due := now)])
              case Ack(_, ackId) =>
                Reclaim(s.(slots := s.slots[i := Slot(slot.rid, ackId, 0, slot.due, false, 0, true, false)]))
              case Nack(_, _, _, _) =>
                Reclaim(s.(slots := s.slots[i := Slot(slot.rid, slot.acked, 0, now, false, 0, true, false)]))
              case _ => s
  {
    AddressedRule(s, f, i);
    assert SlotOk(s, s.slots[i]);
  }

  // ---------- Beacons ----------

  /** A beacon goes out, to everybody, while a sequence number is left and there is something to announce. */
  lemma BeaconRule(s: State, cap: nat)
    ensures BeaconFrame(s, cap)
         == if s.seqNo < 65535 && s.cfg.id != 0 && s.cfg.stream != 0 && s.log != [] && cap >= 18
            then Some(Frame(Header(s.cfg.id, 0, s.seqNo), Beacon(s.cfg.stream, |s.log|))) else None
  {}

  lemma InitRule(cfg: Config, receivers: nat)
    requires receivers <= 0x8000_0000
    ensures var s := Init(cfg, receivers);
            && s.cfg == cfg && s.seqNo == 1 && s.log == [] && s.oldest == 1 && s.cursor == 0 && |s.slots| == receivers
            && forall i :: 0 <= i < receivers ==> s.slots[i] == Slot(0, 0, 0, 0, false, 0, false, false)
  {}
}
