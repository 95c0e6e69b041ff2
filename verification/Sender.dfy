/**
 The sender object. The retained suffix of the log lives in a caller-owned
 ring buffer, receiver progress in a caller-owned slot array; both are updated
 in place. Every method is proved against its counterpart in SenderModel.
 */
module Sender {
  import opened Words
  import opened Framing
  import opened OpFrames
  import opened Operations
  import M = SenderModel
  import opened SenderModel

  datatype Entry = Entry(opId: u32, opType: u8, value: u32)

  /** `index % capacity` for an index below twice the capacity. */
  function Wrap(index: nat, capacity: nat): nat {
    if index < capacity then index else index - capacity
  }

  /** Ring position `k` places after the head stores the `k`-th retained operation of the log. */
  ghost predicate Stores(ring: seq<Entry>, head: nat, oldest: nat, log: seq<Op>, k: nat) {
    && Wrap(head + k, |ring|) < |ring| && 1 <= oldest + k <= |log| <= MAX_U32
    && ring[Wrap(head + k, |ring|)] == Entry(oldest + k, log[oldest + k - 1].opType, log[oldest + k - 1].value)
  }

  ghost predicate Holds(ring: seq<Entry>, head: nat, count: nat, oldest: nat, log: seq<Op>) {
    count > 0 ==> Stores(ring, head, oldest, log, count - 1) && Holds(ring, head, count - 1, oldest, log)
  }

  lemma {:induction false} HoldsAt(ring: seq<Entry>, head: nat, count: nat, oldest: nat, log: seq<Op>, k: nat)
    requires k < count && Holds(ring, head, count, oldest, log)
    ensures Stores(ring, head, oldest, log, k)
  {
    if k < count - 1 {
      HoldsAt(ring, head, count - 1, oldest, log, k);
    }
  }

  lemma {:induction false} HoldsDropped(ring: seq<Entry>, head: nat, count: nat, oldest: nat, log: seq<Op>, drop: nat)
    requires drop <= count <= |ring| && head < |ring| && Holds(ring, head, count, oldest, log)
    ensures Holds(ring, Wrap(head + drop, |ring|), count - drop, oldest + drop, log)
  {
    if drop < count {
      HoldsDropped(ring, head, count - 1, oldest, log, drop);
    }
  }

  /** Writing a free ring position and growing the log leaves what was stored in place. */
  lemma {:induction false} HoldsFrame(
    ring: seq<Entry>, head: nat, count: nat, oldest: nat, log: seq<Op>, free: nat, x: Entry, op: Op)
    requires count <= free < |ring| && head < |ring| && |log| < MAX_U32 && Holds(ring, head, count, oldest, log)
    ensures Holds(ring[Wrap(head + free, |ring|) := x], head, count, oldest, log + [op])
  {
    if count > 0 {
      HoldsFrame(ring, head, count - 1, oldest, log, free, x, op);
    }
  }

  lemma HoldsPushed(ring: seq<Entry>, head: nat, count: nat, oldest: nat, log: seq<Op>, op: Op)
    requires count < |ring| && head < |ring| && Holds(ring, head, count, oldest, log)
    requires 1 <= oldest && oldest + count == |log| + 1 <= MAX_U32
    ensures Holds(ring[Wrap(head + count, |ring|) := Entry(|log| + 1, op.opType, op.value)], head, count + 1, oldest,
            log + [op])
  {
    HoldsFrame(ring, head, count, oldest, log, count, Entry(|log| + 1, op.opType, op.value), op);
  }

  lemma WrapIsMod(index: nat, capacity: nat)
    requires index < 2 * capacity
    ensures index % capacity == Wrap(index, capacity)
  {
    if index < capacity {
      SmallMod(index, capacity);
    } else {
      SmallMod(index - capacity, capacity);
      ModPeriod(index - capacity, capacity);
    }
  }

  lemma ModPeriod(x: nat, n: nat)
    requires n > 0 && x < n
    ensures (x + n) % n == x
  {}

  method RingIndex(head: nat, offset: nat, capacity: nat) returns (index: nat)
    requires head < capacity && offset <= capacity
    ensures index == Wrap(head + offset, capacity)
  {
    index := head + offset;
    WrapIsMod(index, capacity);
    if index >= capacity {
      index := index % capacity;
    }
  }

  method AdvanceHead(head: nat, drop: nat, capacity: nat) returns (head': nat)
    requires if capacity == 0 then head == drop == 0 else head < capacity && drop <= capacity
    ensures head' == if capacity == 0 then 0 else Wrap(head + drop, capacity)
  {
    if capacity > 0 {
      WrapIsMod(head + drop, capacity);
    }
    head' := (head + drop) % (if capacity == 0 then 1 else capacity);
  }

  /** A hit in a prefix is the hit in the whole array. */
  lemma {:induction false} FindSlotStable(slots: seq<Slot>, k: nat, rid: u16)
    requires k <= |slots| && M.FindSlot(slots[..k], rid) < k
    ensures M.FindSlot(slots, rid) == M.FindSlot(slots[..k], rid)
    decreases |slots|
  {
    if k < |slots| {
      assert slots[..|slots| - 1][..k] == slots[..k];
      FindSlotStable(slots[..|slots| - 1], k, rid);
    } else {
      assert slots[..k] == slots;
    }
  }

  lemma {:induction false} FreeSlotStable(slots: seq<Slot>, k: nat)
    requires k <= |slots| && M.FreeSlot(slots[..k]) < k
    ensures M.FreeSlot(slots) == M.FreeSlot(slots[..k])
    decreases |slots|
  {
    if k < |slots| {
      assert slots[..|slots| - 1][..k] == slots[..k];
      FreeSlotStable(slots[..|slots| - 1], k);
    } else {
      assert slots[..k] == slots;
    }
  }

  /** A call that left the sender in state `m` did what emission `e` says, for receiver `rid`. */
  ghost predicate Emitted(e: Emission, m: State, rid: u16, ok: bool, len: nat, out: seq<byte>) {
    && m == e.state && Wrote(e.frame, ok, len, out)
    && (ok ==> e.frame.value.payload.Data? && e.frame.value.header.receiver == rid)
  }

  lemma EachNext(opType: u8, values: seq<u32>, i: nat, ops: seq<Op>)
    requires i < |values|
    ensures ops + Each(opType, values[..i]) + [Op(opType, values[i])] == ops + Each(opType, values[..i + 1])
  {
    assert values[..i + 1][..i] == values[..i];
  }

  class Sender {
    const cfg: Config
    const ops: array<Entry>
    const receivers: array<Slot>
    var seqNo: u16
    var latest: u32
    var oldest: u32
    var head: u32
    var count: u32
    var cursor: u32
    /** The abstract sender these fields and buffers represent. */
    ghost var model: State

    /** The counters describe a stretch of ids ending at the latest one. */
    predicate Counted()
      reads this
    {
      1 <= oldest as int <= latest + 1 && count as int == latest + 1 - oldest
    }

    ghost predicate Valid()
      reads this, ops, receivers
    {
      && model.cfg == cfg && model.seqNo == seqNo && model.oldest == oldest && model.cursor == cursor
      && model.Latest() == latest
      && |model.slots| == receivers.Length
      && (forall i {:trigger receivers[i]} :: 0 <= i < receivers.Length ==> receivers[i] == model.slots[i])
      && Counted()
      && count <= ops.Length == cfg.capacity <= 0x8000_0000
      && (if ops.Length == 0 then head == 0 else head < ops.Length)
      && Holds(ops[..], head, count, oldest, model.log)
    }

    constructor (id: u16, stream: u32, timeout: u32, maxRetries: u8, ops: array<Entry>, receivers: array<Slot>)
      requires ops.Length <= 0x8000_0000 && receivers.Length <= 0x8000_0000
      modifies ops, receivers
      ensures Valid() && this.ops == ops && this.receivers == receivers
      ensures model == M.Init(Config(id, stream, timeout, maxRetries, ops.Length), receivers.Length)
    {
      cfg := Config(id, stream, timeout, maxRetries, ops.Length);
      this.ops, this.receivers := ops, receivers;
      seqNo, latest, oldest, head, count, cursor := 1, 0, 1, 0, 0, 0;
      new;
      forall i | 0 <= i < ops.Length { ops[i] := Entry(0, 0, 0); }
      forall i | 0 <= i < receivers.Length { receivers[i] := EMPTY_SLOT; }
      model := M.Init(cfg, receivers.Length);
    }

    /** The operation with id `opId`, exactly when it is retained. */
    method FindOp(opId: u32) returns (e: Option<Entry>)
      requires Valid()
      ensures e == match M.FindOp(model, opId)
                   case None => None
                   case Some(op) => Some(Entry(opId, op.opType, op.value))
    {
      if opId < oldest || opId > latest || count == 0 {
        return None;
      }
      var offset := opId - oldest;
      if offset >= count || ops.Length == 0 {
        return None;
      }
      var index := RingIndex(head, offset, ops.Length);
      HoldsAt(ops[..], head, count, oldest, model.log, offset);
      return Some(ops[index]);
    }

    method ActiveFloor() returns (floor: u32)
      requires Valid()
      ensures floor == M.Floor(model.slots, Inc32(latest))
    {
      floor := Inc32(latest);
      for i := 0 to receivers.Length
        invariant floor == M.Floor(model.slots[..i], Inc32(latest))
      {
        assert model.slots[..i + 1][..i] == model.slots[..i];
        if receivers[i].active {
          var needed := Inc32(receivers[i].acked);
          if needed < floor {
            floor := needed;
          }
        }
      }
      assert model.slots[..receivers.Length] == model.slots;
    }

    /** Forgets every operation below `floor`. */
    method DropBelow(floor: u32)
      requires Valid() && oldest < floor <= Inc32(latest)
      modifies this`model, this`oldest, this`head, this`count
      ensures Valid() && model == old(model).(oldest := floor)
    {
      var drop := floor - oldest;
      if drop > count {
        drop := count;
      }
      var head' := AdvanceHead(head, drop, ops.Length);
      if ops.Length > 0 {
        HoldsDropped(ops[..], head, count, oldest, model.log, drop);
      }
      oldest, count, head := floor, count - drop, if count == drop then 0 else head';
      model := model.(oldest := floor);
    }

    method ReclaimHistory()
      requires Valid()
      modifies this`model, this`oldest, this`head, this`count
      ensures Valid() && model == M.Reclaim(old(model))
    {
      var floor := ActiveFloor();
      if floor <= oldest {
        return;
      }
      M.FloorAtMost(model.slots, Inc32(latest));
      if floor > Inc32(latest) {
        floor := Inc32(latest);
      }
      DropBelow(floor);
    }

    /**
     Stores one more operation in the ring under the next id. The id counter
     is incremented without a guard, so at the last id it wraps to 0, and the
     counters no longer describe any log.
     */
    method Push(opType: u8, value: u32)
      requires Valid() && count < ops.Length
      modifies this`oldest, this`head, this`count, this`latest, this`model, ops
      ensures if old(latest) < MAX_U32
              then Valid() && model == old(model).(log := old(model.log) + [Op(opType, value)]) && latest == old(latest) + 1
              else latest == 0 && !Counted()
    {
      var next := Inc32(latest);
      var head', oldest' := if count == 0 then 0 else head, if count == 0 then next else oldest;
      var index := RingIndex(head', count, ops.Length);
      if latest < MAX_U32 {
        HoldsPushed(ops[..], head', count, oldest', model.log, Op(opType, value));
        model := model.(log := model.log + [Op(opType, value)]);
      }
      ghost var ring := ops[..][index := Entry(next, opType, value)];
      ops[index] := Entry(next, opType, value);
      assert ops[..] == ring;
      latest, head, oldest, count := next, head', oldest', count + 1;
    }

    /**
     enqueue_op. The id counter is incremented without a guard: an accepted
     operation at the last id wraps it to 0 and leaves counters that fit no log.
     */
    method EnqueueOp(opType: u8, value: u32) returns (ok: bool, opId: u32)
      requires Valid()
      modifies this`oldest, this`head, this`count, this`latest, this`model, ops
      ensures var op := Op(opType, value);
              if old(latest) < MAX_U32 then
                Valid() && (model, ok) == M.Enqueue(old(model), op) && opId == if ok then latest else 0
              else if ok then latest == 0 && !Counted()
              else Valid() && model == if M.RejectOp(op) then old(model) else M.Reclaim(old(model))
    {
      if opType == 0 || value > MAX_VALUE {
        return false, 0;
      }
      ReclaimHistory();
      if ops.Length == 0 || count >= ops.Length {
        return false, 0;
      }
      Push(opType, value);
      return true, latest;
    }

    /** enqueue_lists: one log entry per list element, all removes first; all of them or none. */
    method EnqueueLists(removes: seq<u32>, adds: seq<u32>) returns (ok: bool, first: u32, last: u32)
      requires Valid()
      modifies this`oldest, this`head, this`count, this`latest, this`model, ops
      ensures Valid() && (model, ok) == M.EnqueueLists(old(model), removes, adds)
      ensures !ok || |removes| + |adds| == 0 ==> first == last == 0
      ensures ok && |removes| + |adds| > 0 ==> first == old(latest) + 1 && last == latest == old(latest) + |removes| + |adds|
    {
      var total := |removes| + |adds|;
      if total == 0 {
        return true, 0, 0;
      }
      if total > MAX_U32 || total > ops.Length - count || latest + total > MAX_U32 {
        return false, 0, 0;
      }
      var removesOk := AllInRange(removes);
      var addsOk := AllInRange(adds);
      if !removesOk || !addsOk {
        return false, 0, 0;
      }
      first, last := EnqueueAll(removes, adds);
      ok := true;
    }

    /** The two insertion loops of enqueue_lists; neither can fail once its guards have passed. */
    method EnqueueAll(removes: seq<u32>, adds: seq<u32>) returns (first: u32, last: u32)
      requires Valid() && |removes| + |adds| > 0 && AcceptsLists(model, removes, adds)
      modifies this`oldest, this`head, this`count, this`latest, this`model, ops
      ensures Valid() && model == Appended(old(model), Ops(removes, adds))
      ensures first == old(latest) + 1 && last == latest == old(latest) + |removes| + |adds|
    {
      ghost var s0 := model;
      var first', last' := EnqueueEach(REMOVE, removes, s0, []);
      first, last := EnqueueEach(ADD, adds, s0, Each(REMOVE, removes));
      if |removes| > 0 {
        first := first';
      }
      if |adds| == 0 {
        last := last';
      }
    }

    /** Element `i` of a list, after `ops` and the elements before it were inserted into `s0`. */
    method EnqueueNext(opType: u8, values: seq<u32>, i: nat, ghost s0: State, ghost ops: seq<Op>) returns (last: u32)
      requires Valid() && (opType == ADD || opType == REMOVE) && i < |values| && values[i] <= MAX_VALUE
      requires 1 <= s0.oldest <= s0.Latest() + 1
      requires s0.Retained() + |ops| + i < s0.cfg.capacity && |s0.log| + |ops| + i < MAX_U32
      requires model == Appended(s0, ops + Each(opType, values[..i]))
      modifies this`oldest, this`head, this`count, this`latest, this`model, this.ops
      ensures Valid() && model == Appended(s0, ops + Each(opType, values[..i + 1]))
      ensures last == latest == old(latest) + 1
    {
      ghost var done, op := ops + Each(opType, values[..i]), Op(opType, values[i]);
      AppendedStep(s0, done, op);
      EachNext(opType, values, i, ops);
      var stored;
      stored, last := EnqueueOp(opType, values[i]);
    }

    /** One of the two insertion loops of enqueue_lists, after `ops` were inserted into `s0`. */
    method EnqueueEach(opType: u8, values: seq<u32>, ghost s0: State, ghost ops: seq<Op>) returns (first: u32, last: u32)
      requires Valid() && (opType == ADD || opType == REMOVE) && InRange(values)
      requires 1 <= s0.oldest <= s0.Latest() + 1
      requires s0.Retained() + |ops| + |values| <= s0.cfg.capacity && |s0.log| + |ops| + |values| <= MAX_U32
      requires model == Appended(s0, ops)
      modifies this`oldest, this`head, this`count, this`latest, this`model, this.ops
      ensures Valid() && model == Appended(s0, ops + Each(opType, values))
      ensures latest == old(latest) + |values|
      ensures if values == [] then first == last == 0 else first == old(latest) + 1 && last == latest
    {
      first, last := 0, 0;
      assert ops + Each(opType, values[..0]) == ops;
      for i := 0 to |values|
        invariant Valid() && model == Appended(s0, ops + Each(opType, values[..i])) && latest == old(latest) + i
        invariant if i == 0 then first == last == 0 else first == old(latest) + 1 && last == latest
      {
        last := EnqueueNext(opType, values, i, s0, ops);
        if first == 0 {
          first := last;
        }
      }
      assert values[..|values|] == values;
    }

    method AllInRange(values: seq<u32>) returns (ok: bool)
      ensures ok <==> InRange(values)
    {
      for i := 0 to |values|
        invariant forall j :: 0 <= j < i ==> values[j] <= MAX_VALUE
      {
        if values[i] > MAX_VALUE {
          return false;
        }
      }
      return true;
    }

    // ---------- Receiver registry ----------

    method FindSlot(rid: u16) returns (i: nat)
      requires Valid()
      ensures i == M.FindSlot(model.slots, rid)
    {
      i := 0;
      while i < receivers.Length
        invariant i <= receivers.Length
        invariant M.FindSlot(model.slots[..i], rid) == i
      {
        assert model.slots[..i + 1][..i] == model.slots[..i];
        if receivers[i].active && receivers[i].rid == rid {
          FindSlotStable(model.slots, i + 1, rid);
          return;
        }
        i := i + 1;
      }
      assert model.slots[..i] == model.slots;
    }

    method FindFree() returns (i: nat)
      requires Valid()
      ensures i == M.FreeSlot(model.slots)
    {
      i := 0;
      while i < receivers.Length
        invariant i <= receivers.Length
        invariant M.FreeSlot(model.slots[..i]) == i
      {
        assert model.slots[..i + 1][..i] == model.slots[..i];
        if !receivers[i].active {
          FreeSlotStable(model.slots, i + 1);
          return;
        }
        i := i + 1;
      }
      assert model.slots[..i] == model.slots;
    }

    /** Overwrites one slot. */
    method PutSlot(i: nat, slot: Slot)
      requires Valid() && i < receivers.Length
      modifies this`model, receivers
      ensures Valid() && model == WithSlot(old(model), i, slot)
    {
      receivers[i] := slot;
      model := WithSlot(model, i, slot);
    }

    method RegisterReceiver(rid: u16, acked: u32) returns (ok: bool)
      requires Valid()
      modifies this`model, this`oldest, this`head, this`count, receivers
      ensures Valid() && (model, ok) == M.Register(old(model), rid, acked)
    {
      if rid == 0 {
        return false;
      }
      ReclaimHistory();
      var i := FindSlot(rid);
      if i < receivers.Length {
        return true;
      }
      i := FindFree();
      if i == receivers.Length {
        return false;
      }
      PutSlot(i, receivers[i].(active := true, rid := rid, acked := acked, exhausted := false));
      return true;
    }

    method SetReceiverProgress(rid: u16, acked: u32) returns (ok: bool)
      requires Valid()
      modifies this`model, this`oldest, this`head, this`count, receivers
      ensures Valid() && (model, ok) == M.SetProgress(old(model), rid, acked)
    {
      var i := FindSlot(rid);
      if i == receivers.Length {
        return false;
      }
      PutSlot(i, receivers[i].(acked := acked, waiting := false, inflight := 0, retries := 0, exhausted := false));
      ReclaimHistory();
      return true;
    }

    method UnregisterReceiver(rid: u16) returns (ok: bool)
      requires Valid()
      modifies this`model, this`oldest, this`head, this`count, receivers
      ensures Valid() && (model, ok) == M.Unregister(old(model), rid)
    {
      var i := FindSlot(rid);
      if i == receivers.Length {
        return false;
      }
      PutSlot(i, receivers[i].(active := false, waiting := false, inflight := 0, retries := 0, exhausted := false));
      ReclaimHistory();
      return true;
    }

    // ---------- Transport ----------

    method BuildBeacon(out: array<byte>) returns (ok: bool, len: nat)
      requires Valid()
      modifies out
      ensures Valid() && model == old(model)
      ensures Wrote(M.BeaconFrame(old(model), out.Length), ok, len, out[..])
    {
      if seqNo == MAX_U16 {
        return false, 0;
      }
      ok, len := Encode(out, out.Length, Frame(Header(cfg.id, 0, seqNo), Beacon(cfg.stream, latest)));
    }

    method EmitData(i: nat, opId: u32, now: u64, out: array<byte>) returns (ok: bool, len: nat)
      requires Valid() && i < receivers.Length
      modifies this`model, this`seqNo, receivers, out
      ensures Valid()
      ensures Emitted(M.Emit(old(model), i, opId, now, out.Length), model, old(model).slots[i].rid, ok, len, out[..])
    {
      ghost var s := model;
      var op := FindOp(opId);
      if op == None || seqNo == MAX_U16 {
        return false, 0;
      }
      var slot := receivers[i];
      var f := Frame(Header(cfg.id, slot.rid, seqNo), Data(cfg.stream, op.value.opId, op.value.opType, op.value.value));
      assert f == DataFrame(s, slot.rid, opId, M.FindOp(s, opId).value);
      seqNo, model := seqNo + 1, model.(seqNo := seqNo + 1);
      ok, len := Encode(out, out.Length, f);
      if ok {
        PutSlot(i, slot.(inflight := opId, waiting := true, exhausted := false, due := M.Deadline(now, cfg.timeout)));
      }
    }

    method RetransmitSlot(i: nat, now: u64, out: array<byte>) returns (ok: bool, len: nat)
      requires Valid() && i < receivers.Length && receivers[i].retries < 255
      modifies this`model, this`seqNo, receivers, out
      ensures Valid() && receivers.Length == |model.slots|
      ensures Emitted(M.Retransmit(old(model), i, now, out.Length), model, old(model).slots[i].rid, ok, len, out[..])
    {
      var slot := receivers[i];
      PutSlot(i, slot.(retries := slot.retries + 1));
      ok, len := EmitData(i, slot.inflight, now, out);
    }

    method TransmitSlot(i: nat, now: u64, out: array<byte>) returns (ok: bool, len: nat)
      requires Valid() && i < receivers.Length
      modifies this`model, this`seqNo, receivers, out
      ensures Valid()
      ensures Emitted(M.Transmit(old(model), i, now, out.Length), model, old(model).slots[i].rid, ok, len, out[..])
    {
      ok, len := EmitData(i, Inc32(receivers[i].acked), now, out);
      if ok {
        PutSlot(i, receivers[i].(retries := 0));
      }
    }

    method ServeSlot(i: nat, now: u64, out: array<byte>) returns (ok: bool, len: nat)
      requires Valid() && i < receivers.Length && Ready(model, i, now)
      modifies this`model, this`seqNo, this`cursor, receivers, out
      ensures Valid()
      ensures Emitted(M.Serve(old(model), i, now, out.Length), model, old(model).slots[i].rid, ok, len, out[..])
    {
      if receivers[i].waiting {
        ok, len := RetransmitSlot(i, now, out);
      } else {
        ok, len := TransmitSlot(i, now, out);
      }
      if ok {
        var past := AdvanceHead(i, 1, receivers.Length);
        cursor, model := past, PastSlot(model, i);
      }
    }

    /** The body of the scan loop: serves a ready slot, exhausts an overdue one, passes any other. */
    method VisitSlot(i: nat, now: u64, out: array<byte>) returns (served: bool, ok: bool, len: nat)
      requires Valid() && i < receivers.Length
      modifies this`model, this`seqNo, this`cursor, receivers, out
      ensures Valid() && served == Ready(old(model), i, now)
      ensures !served ==> model == if TurnOf(old(model), old(model).slots[i], now) == Expire
                                   then WithSlot(old(model), i, Expired(old(model).slots[i])) else old(model)
      ensures served ==>
                Emitted(M.Serve(old(model), i, now, out.Length), model, old(model).slots[i].rid, ok, len, out[..])
    {
      served, ok, len := false, false, 0;
      var slot := receivers[i];
      if !slot.active || slot.exhausted {
        return;
      }
      if slot.waiting {
        if now < slot.due {
          return;
        }
        if slot.retries >= cfg.maxRetries {
          PutSlot(i, slot.(waiting := false, inflight := 0, retries := 0, exhausted := true));
          return;
        }
      } else if Inc32(slot.acked) > latest || Inc32(slot.acked) < oldest {
        return;
      }
      served := true;
      ok, len := ServeSlot(i, now, out);
    }

    /** Visits the slot `k` places after the start of a scan that began in state `r` and has served nothing yet. */
    method VisitNext(ghost r: State, start: nat, k: nat, now: u64, out: array<byte>)
      returns (served: bool, ok: bool, len: nat, target: u16)
      requires Valid() && r.slots != [] && start == Start(r) && k < receivers.Length == |r.slots|
      requires model == Swept(r, start, k, now) && FirstReady(r, start, k, now) == FirstReady(r, start, 0, now)
      modifies this`model, this`seqNo, this`cursor, receivers, out
      ensures Valid()
      ensures !served ==>
                model == Swept(r, start, k + 1, now) && FirstReady(r, start, k + 1, now) == FirstReady(r, start, 0, now)
      ensures served ==> Emitted(M.Scan(r, now, out.Length), model, target, ok, len, out[..]) && (!ok ==> target == 0)
    {
      var i := RingIndex(start, k, receivers.Length);
      SweptNext(r, start, k, now);
      if Ready(r, i, now) {
        ScanServes(r, k, now, out.Length);
      }
      var rid := receivers[i].rid;
      served, ok, len := VisitSlot(i, now, out);
      target := if ok then rid else 0;
    }

    /** The scan loop of poll_tx, starting at the cursor. */
    method ScanSlots(now: u64, out: array<byte>) returns (ok: bool, len: nat, target: u16)
      requires Valid() && receivers.Length > 0
      modifies this`model, this`seqNo, this`cursor, receivers, out
      ensures Valid()
      ensures Emitted(M.Scan(old(model), now, out.Length), model, target, ok, len, out[..]) && (!ok ==> target == 0)
    {
      ghost var r := model;
      var n := receivers.Length;
      var start := cursor % n;
      var k := 0;
      while k < n
        invariant k <= n && Valid() && model == Swept(r, start, k, now)
        invariant FirstReady(r, start, k, now) == FirstReady(r, start, 0, now)
      {
        var served;
        served, ok, len, target := VisitNext(r, start, k, now, out);
        if served {
          return;
        }
        k := k + 1;
      }
      return false, 0, 0;
    }

    /** poll_tx: reclaims history, then scans. */
    method PollTx(now: u64, out: array<byte>) returns (ok: bool, len: nat, target: u16)
      requires Valid()
      modifies this`model, this`oldest, this`head, this`count, this`seqNo, this`cursor, receivers, out
      ensures Valid()
      ensures Emitted(M.Poll(old(model), now, out.Length), model, target, ok, len, out[..]) && (!ok ==> target == 0)
    {
      ReclaimHistory();
      if receivers.Length == 0 {
        return false, 0, 0;
      }
      ok, len, target := ScanSlots(now, out);
    }

    /** handle_rx: dispatch on the type byte, decode, and update the addressed slot. */
    method HandleRx(now: u64, input: seq<byte>) returns (ok: bool)
      requires Valid()
      modifies this`model, this`oldest, this`head, this`count, receivers
      ensures Valid()
      ensures match DecodeAny(input)
              case None => !ok && model == old(model)
              case Some(f) => (model, ok) == M.HandleRx(old(model), now, f)
    {
      var decoded := DecodeAny(input);
      if decoded == None {
        return false;
      }
      var f := decoded.value;
      var i := FindSlot(f.header.sender);
      if i == receivers.Length || f.header.receiver != cfg.id || f.payload.stream != cfg.stream {
        return false;
      }
      match f.payload
      case Request(_, next) => ok := OnRequest(i, next, now);
      case Ack(_, ackId) => ok := OnAck(i, ackId);
      case Nack(_, _, _, expected) => ok := OnNack(i, expected, now);
      case Beacon(_, _) => return false;
      case Data(_, _, _, _) => return false;
    }

    method OnRequest(i: nat, next: u32, now: u64) returns (ok: bool)
      requires Valid() && i < receivers.Length
      modifies this`model, receivers
      ensures Valid() && ok == AcceptsRequest(old(model), old(model).slots[i], next)
      ensures model == if ok then WithSlot(old(model), i, old(model).slots[i].(due := now)) else old(model)
    {
      var slot := receivers[i];
      if next < oldest || next > Inc32(latest) || next != Inc32(slot.acked) || slot.exhausted
         || (slot.waiting && slot.inflight != next) {
        return false;
      }
      PutSlot(i, slot.(due := now));
      return true;
    }

    method OnAck(i: nat, ackId: u32) returns (ok: bool)
      requires Valid() && i < receivers.Length
      modifies this`model, this`oldest, this`head, this`count, receivers
      ensures Valid() && ok == AcceptsAck(old(model).slots[i], ackId)
      ensures model == if ok then M.Reclaim(WithSlot(old(model), i,
              Idle(old(model).slots[i]).(acked := ackId))) else old(model)
    {
      var slot := receivers[i];
      if !slot.waiting || slot.inflight == 0 || ackId != slot.inflight {
        return false;
      }
      PutSlot(i, slot.(acked := ackId, waiting := false, inflight := 0, retries := 0, exhausted := false));
      ReclaimHistory();
      return true;
    }

    method OnNack(i: nat, expected: u32, now: u64) returns (ok: bool)
      requires Valid() && i < receivers.Length
      modifies this`model, this`oldest, this`head, this`count, receivers
      ensures Valid() && ok == AcceptsNack(old(model), old(model).slots[i], expected)
      ensures model == if ok then M.Reclaim(WithSlot(old(model), i, Idle(old(model).slots[i]).(due := now))) else old(model)
    {
      var slot := receivers[i];
      if !slot.waiting || slot.inflight == 0 || expected < oldest || expected > Inc32(latest) || expected != slot.inflight {
        return false;
      }
      PutSlot(i, slot.(waiting := false, inflight := 0, retries := 0, exhausted := false, due := now));
      ReclaimHistory();
      return true;
    }
  }
}
