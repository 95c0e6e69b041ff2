/**
 The sender as a value: the log of every operation ever enqueued, the oldest
 retained id, and one slot per receiver. The ring buffer that stores the
 retained suffix of the log is in module Sender.
 */
module SenderModel {
  import opened Words
  import opened Framing
  import opened OpFrames
  import opened Operations

  type Log = s: seq<Op> | |s| <= 0xFFFF_FFFF

  datatype Slot = Slot(
    rid: u16, acked: u32, inflight: u32, due: u64,
    waiting: bool, retries: u8, active: bool, exhausted: bool)

  type Slots = s: seq<Slot> | |s| <= 0x8000_0000

  const EMPTY_SLOT := Slot(0, 0, 0, 0, false, 0, false, false)

  /** What num8lora_sender_init fixes for the life of a sender. */
  datatype Config = Config(id: u16, stream: u32, timeout: u32, maxRetries: u8, capacity: u32)

  datatype State = State(cfg: Config, seqNo: u16, log: Log, oldest: u32, cursor: u32, slots: Slots)
  {
    function Latest(): u32 { |log| }

    function Retained(): int { |log| + 1 - oldest }
  }

  function Init(cfg: Config, receivers: nat): State
    requires receivers <= 0x8000_0000
  {
    State(cfg, 1, [], 1, 0, seq(receivers, _ => EMPTY_SLOT))
  }

  // ---------- History ----------

  /** The lowest operation id some active slot still needs, or `top`. */
  function Floor(slots: seq<Slot>, top: u32): u32 {
    if slots == [] then top
    else
      var n := |slots| - 1;
      var rest := Floor(slots[..n], top);
      if slots[n].active && Inc32(slots[n].acked) < rest then Inc32(slots[n].acked) else rest
  }

  lemma {:induction false} FloorIsLowest(slots: seq<Slot>, top: u32)
    ensures Floor(slots, top) <= top
    ensures forall i :: 0 <= i < |slots| && slots[i].active ==> Floor(slots, top) <= Inc32(slots[i].acked)
    ensures Floor(slots, top) == top
            || exists i :: 0 <= i < |slots| && slots[i].active && Floor(slots, top) == Inc32(slots[i].acked)
  {
    if slots != [] {
      var n := |slots| - 1;
      FloorIsLowest(slots[..n], top);
      if Floor(slots[..n], top) != top {
        var i :| 0 <= i < n && slots[..n][i].active && Floor(slots[..n], top) == Inc32(slots[..n][i].acked);
        assert slots[i] == slots[..n][i];
      }
      assert forall i :: 0 <= i < n ==> slots[i] == slots[..n][i];
    }
  }

  lemma FloorAtMost(slots: seq<Slot>, top: u32)
    ensures Floor(slots, top) <= top
  {
    FloorIsLowest(slots, top);
  }

  /** Drops the operations that no active slot needs. */
  function Reclaim(s: State): State {
    var floor := Floor(s.slots, Inc32(s.Latest()));
    if floor <= s.oldest then s else s.(oldest := floor)
  }

  function FindOp(s: State, opId: u32): Option<Op> {
    if s.oldest <= opId <= s.Latest() && opId > 0 then Some(s.log[opId - 1]) else None
  }

  function RejectOp(op: Op): bool {
    op.opType == 0 || op.value > MAX_VALUE
  }

  /** Appends one operation unless the ring stays full after reclaiming. */
  function Enqueue(s: State, op: Op): (State, bool)
    requires s.Latest() < MAX_U32
  {
    if RejectOp(op) then (s, false)
    else
      var r := Reclaim(s);
      if r.Retained() >= r.cfg.capacity then (r, false) else (r.(log := r.log + [op]), true)
  }

  /** The guards a list is checked against before anything is stored. */
  predicate AcceptsLists(s: State, removes: seq<u32>, adds: seq<u32>) {
    && |removes| + |adds| <= s.cfg.capacity - s.Retained()
    && s.Latest() + |removes| + |adds| <= MAX_U32
    && InRange(removes) && InRange(adds)
  }

  /** `s` after inserting all of `ops`. Each insertion first reclaims, so the last one decides what is retained. */
  function Appended(s: State, ops: seq<Op>): State
    requires |s.log| + |ops| <= MAX_U32
  {
    if ops == [] then s
    else
      var all := s.log + ops;
      Reclaim(s.(log := all[..|all| - 1])).(log := all)
  }

  /** All removes, then all adds, or nothing. */
  function EnqueueLists(s: State, removes: seq<u32>, adds: seq<u32>): (State, bool) {
    if |removes| + |adds| == 0 then (s, true)
    else if !AcceptsLists(s, removes, adds) then (s, false)
    else (Appended(s, Ops(removes, adds)), true)
  }

  lemma {:induction false} FloorMonotone(slots: seq<Slot>, low: u32, high: u32)
    requires low <= high
    ensures Floor(slots, low) <= Floor(slots, high)
  {
    if slots != [] {
      FloorMonotone(slots[..|slots| - 1], low, high);
    }
  }

  /** Reclaiming once more after an insertion is reclaiming once, at its end. */
  lemma AppendedReclaim(s: State, ops: seq<Op>)
    requires |s.log| + |ops| < MAX_U32
    ensures Reclaim(Appended(s, ops)) == Reclaim(s.(log := s.log + ops))
  {
    var all := s.log + ops;
    if ops != [] {
      FloorMonotone(s.slots, Inc32(|all| - 1), Inc32(|all|));
    } else {
      assert all == s.log;
    }
  }

  /** Inserting one operation at a time never fails midway and adds up to the whole insertion. */
  lemma AppendedStep(s: State, ops: seq<Op>, op: Op)
    requires 1 <= s.oldest <= s.Latest() + 1
    requires s.Retained() + |ops| < s.cfg.capacity && |s.log| + |ops| < MAX_U32 && !RejectOp(op)
    ensures Enqueue(Appended(s, ops), op) == (Appended(s, ops + [op]), true)
  {
    var all := s.log + ops;
    var next := s.log + (ops + [op]);
    assert next == all + [op] && next[..|next| - 1] == all;
    FloorIsLowest(s.slots, Inc32(|all|));
    AppendedReclaim(s, ops);
  }

  /** The insertion loops as the source runs them: one enqueue after the other, stopping at the first failure. */
  function OneByOne(s: State, ops: seq<Op>): (State, bool)
    requires |s.log| + |ops| <= MAX_U32
    ensures |OneByOne(s, ops).0.log| <= |s.log| + |ops|
  {
    if ops == [] then (s, true)
    else
      var (t, ok) := OneByOne(s, ops[..|ops| - 1]);
      if ok then Enqueue(t, ops[|ops| - 1]) else (t, false)
  }

  /** A list that passed the guards is inserted to the end, although every insertion reclaims history first. */
  lemma {:induction false} OneByOneSucceeds(s: State, ops: seq<Op>)
    requires 1 <= s.oldest <= s.Latest() + 1
    requires s.Retained() + |ops| <= s.cfg.capacity && |s.log| + |ops| <= MAX_U32
    requires forall i :: 0 <= i < |ops| ==> !RejectOp(ops[i])
    ensures OneByOne(s, ops) == (Appended(s, ops), true)
  {
    if ops != [] {
      var front, op := ops[..|ops| - 1], ops[|ops| - 1];
      OneByOneSucceeds(s, front);
      AppendedStep(s, front, op);
      assert front + [op] == ops;
    }
  }

  /** enqueue_lists fails without a trace, or appends all removes and then all adds as that many single enqueues would. */
  lemma ListsAllOrNothing(s: State, removes: seq<u32>, adds: seq<u32>)
    requires 1 <= s.oldest <= s.Latest() + 1
    ensures var (t, ok) := EnqueueLists(s, removes, adds);
            if !ok then t == s
            else |s.log| + |removes| + |adds| <= MAX_U32 && t.log == s.log + Ops(removes, adds)
                 && OneByOne(s, Ops(removes, adds)) == (t, true)
  {
    if |removes| + |adds| > 0 && AcceptsLists(s, removes, adds) {
      LegalOps(removes, adds);
      OneByOneSucceeds(s, Ops(removes, adds));
    }
  }

  lemma LegalOps(removes: seq<u32>, adds: seq<u32>)
    requires InRange(removes) && InRange(adds)
    ensures forall i :: 0 <= i < |Ops(removes, adds)| ==> !RejectOp(Ops(removes, adds)[i])
  {
    forall i | 0 <= i < |Ops(removes, adds)| ensures !RejectOp(Ops(removes, adds)[i]) {
      if i < |removes| {
        EachAt(REMOVE, removes, i);
      } else {
        EachAt(ADD, adds, i - |removes|);
      }
    }
  }

  /** A single enqueue fails exactly when the operation is illegal or what is still needed fills the ring. */
  lemma EnqueueFailsExactly(s: State, op: Op)
    requires s.Latest() < MAX_U32 && 1 <= s.oldest <= s.Latest() + 1
    ensures var needed := Floor(s.slots, s.Latest() + 1);
            !Enqueue(s, op).1 <==>
              RejectOp(op) || s.Latest() + 1 - (if needed > s.oldest then needed else s.oldest) >= s.cfg.capacity
  {}

  // ---------- Slots ----------

  /** Index of the first active slot of receiver `rid`, or the number of slots. */
  function FindSlot(slots: seq<Slot>, rid: u16): (i: nat)
    ensures i <= |slots|
    ensures i < |slots| ==> slots[i].active && slots[i].rid == rid
  {
    if slots == [] then 0
    else
      var n := |slots| - 1;
      var i := FindSlot(slots[..n], rid);
      if i < n then i
      else if slots[n].active && slots[n].rid == rid then n
      else n + 1
  }

  lemma {:induction false} FindSlotFirst(slots: seq<Slot>, rid: u16)
    ensures forall j :: 0 <= j < FindSlot(slots, rid) ==> !(slots[j].active && slots[j].rid == rid)
  {
    if slots != [] {
      var n := |slots| - 1;
      FindSlotFirst(slots[..n], rid);
      assert forall j :: 0 <= j < n ==> slots[j] == slots[..n][j];
    }
  }

  /** Index of the first inactive slot, or the number of slots. */
  function FreeSlot(slots: seq<Slot>): (i: nat)
    ensures i <= |slots|
    ensures i < |slots| ==> !slots[i].active
  {
    if slots == [] then 0
    else
      var n := |slots| - 1;
      var i := FreeSlot(slots[..n]);
      if i < n then i else if !slots[n].active then n else n + 1
  }

  lemma {:induction false} FreeSlotFirst(slots: seq<Slot>)
    ensures forall j :: 0 <= j < FreeSlot(slots) ==> slots[j].active
  {
    if slots != [] {
      FreeSlotFirst(slots[..|slots| - 1]);
      assert forall j :: 0 <= j < |slots| - 1 ==> slots[j] == slots[..|slots| - 1][j];
    }
  }

  /** Slot `k` is the only active one. */
  predicate Alone(s: State, k: nat) {
    && k < |s.slots| && s.slots[k].active
    && forall j :: 0 <= j < |s.slots| && j != k ==> !s.slots[j].active
  }

  function WithSlot(s: State, i: nat, slot: Slot): State
    requires i < |s.slots|
  {
    s.(slots := s.slots[i := slot])
  }

  function Register(s: State, rid: u16, acked: u32): (State, bool) {
    if rid == 0 then (s, false)
    else
      var r := Reclaim(s);
      var i := FreeSlot(r.slots);
      if FindSlot(r.slots, rid) < |r.slots| then (r, true)
      else if i < |r.slots| then
        (WithSlot(r, i, r.slots[i].(active := true, rid := rid, acked := acked, exhausted := false)), true)
      else (r, false)
  }

  function Idle(slot: Slot): Slot {
    slot.(waiting := false, inflight := 0, retries := 0, exhausted := false)
  }

  function SetProgress(s: State, rid: u16, acked: u32): (State, bool) {
    var i := FindSlot(s.slots, rid);
    if i == |s.slots| then (s, false)
    else (Reclaim(WithSlot(s, i, Idle(s.slots[i]).(acked := acked))), true)
  }

  function Unregister(s: State, rid: u16): (State, bool) {
    var i := FindSlot(s.slots, rid);
    if i == |s.slots| then (s, false)
    else (Reclaim(WithSlot(s, i, Idle(s.slots[i]).(active := false))), true)
  }

  // ---------- Scheduling ----------

  datatype Emission = Emission(state: State, frame: Option<Frame>)

  /** `now + timeout`, saturating. */
  function Deadline(now: u64, timeout: u32): u64 {
    if MAX_U64 - now < timeout then MAX_U64 else now + timeout
  }

  function DataFrame(s: State, rid: u16, opId: u32, op: Op): Frame {
    Frame(Header(s.cfg.id, rid, s.seqNo), Data(s.cfg.stream, opId, op.opType, op.value))
  }

  /** Sends operation `opId` to slot `i`. The sequence number is spent even if the encoder refuses. */
  function Emit(s: State, i: nat, opId: u32, now: u64, cap: nat): Emission
    requires i < |s.slots|
  {
    match FindOp(s, opId)
    case None => Emission(s, None)
    case Some(op) =>
      if s.seqNo == MAX_U16 then Emission(s, None)
      else
        var frame := DataFrame(s, s.slots[i].rid, opId, op);
        var spent := s.(seqNo := s.seqNo + 1);
        if !Legal(frame) || cap < FrameLength(DATA) then Emission(spent, None)
        else
          var due := Deadline(now, s.cfg.timeout);
          var slot := s.slots[i].(inflight := opId, waiting := true, exhausted := false, due := due);
          Emission(WithSlot(spent, i, slot), Some(frame))
  }

  datatype Turn = Skip | Expire | Resend | First

  /** What the scheduler does with a slot it visits. */
  function TurnOf(s: State, slot: Slot, now: u64): Turn {
    if !slot.active || slot.exhausted then Skip
    else if slot.waiting then
      if now < slot.due then Skip else if slot.retries >= s.cfg.maxRetries then Expire else Resend
    else if Inc32(slot.acked) > s.Latest() || Inc32(slot.acked) < s.oldest then Skip
    else First
  }

  predicate Ready(s: State, i: nat, now: u64)
    requires i < |s.slots|
  {
    var t := TurnOf(s, s.slots[i], now);
    t == Resend || t == First
  }

  /** The index `k` places after `start` in a cycle of `n`. */
  function Ahead(n: nat, start: nat, k: nat): (i: nat)
    requires start < n && k < n
    ensures i < n && Distance(n, start, i) == k
  {
    if start + k < n then start + k else start + k - n
  }

  function Distance(n: nat, start: nat, i: nat): (k: nat)
    requires start < n && i < n
    ensures k < n
  {
    if i >= start then i - start else i + n - start
  }

  function Expired(slot: Slot): Slot {
    slot.(waiting := false, inflight := 0, retries := 0, exhausted := true)
  }

  /** The slots after the first `k` from `start` were visited and none was served. */
  function SweptSlots(s: State, start: nat, k: nat, now: u64): (slots: seq<Slot>)
    requires start < |s.slots| && k <= |s.slots|
    ensures |slots| == |s.slots|
  {
    if k == 0 then s.slots
    else
      var i := Ahead(|s.slots|, start, k - 1);
      var before := SweptSlots(s, start, k - 1, now);
      if TurnOf(s, s.slots[i], now) == Expire then before[i := Expired(s.slots[i])] else before
  }

  function Swept(s: State, start: nat, k: nat, now: u64): State
    requires start < |s.slots| && k <= |s.slots|
  {
    s.(slots := SweptSlots(s, start, k, now))
  }

  /** Exactly the overdue slots out of retries among those visited have changed. */
  lemma {:induction false} SweptAt(s: State, start: nat, k: nat, now: u64, i: nat)
    requires start < |s.slots| && k <= |s.slots| && i < |s.slots|
    ensures SweptSlots(s, start, k, now)[i]
            == if Distance(|s.slots|, start, i) < k && TurnOf(s, s.slots[i], now) == Expire
               then Expired(s.slots[i]) else s.slots[i]
  {
    if k > 0 {
      SweptAt(s, start, k - 1, now, i);
    }
  }

  /** Distance from `start` of the first ready slot at distance `k` or more, or the number of slots. */
  function FirstReady(s: State, start: nat, k: nat, now: u64): (r: nat)
    requires start < |s.slots| && k <= |s.slots|
    ensures k <= r <= |s.slots|
    ensures r < |s.slots| ==> Ready(s, Ahead(|s.slots|, start, r), now)
    decreases |s.slots| - k
  {
    if k == |s.slots| || Ready(s, Ahead(|s.slots|, start, k), now) then k else FirstReady(s, start, k + 1, now)
  }

  lemma {:induction false} FirstReadyIsFirst(s: State, start: nat, k: nat, now: u64)
    requires start < |s.slots| && k <= |s.slots|
    ensures forall j :: k <= j < FirstReady(s, start, k, now) ==> !Ready(s, Ahead(|s.slots|, start, j), now)
    decreases |s.slots| - k
  {
    if !(k == |s.slots| || Ready(s, Ahead(|s.slots|, start, k), now)) {
      FirstReadyIsFirst(s, start, k + 1, now);
    }
  }

  /** A retransmission counts a retry, even if the emission then fails. */
  function Retransmit(s: State, i: nat, now: u64, cap: nat): Emission
    requires i < |s.slots| && s.slots[i].retries < 255
  {
    var slot := s.slots[i];
    Emit(WithSlot(s, i, slot.(retries := slot.retries + 1)), i, slot.inflight, now, cap)
  }

  /** A first transmission clears the retries. */
  function Transmit(s: State, i: nat, now: u64, cap: nat): Emission
    requires i < |s.slots|
  {
    var e := Emit(s, i, Inc32(s.slots[i].acked), now, cap);
    if e.frame == None then e else e.(state := WithSlot(e.state, i, e.state.slots[i].(retries := 0)))
  }

  function PastSlot(s: State, i: nat): State
    requires i < |s.slots|
  {
    s.(cursor := if i + 1 == |s.slots| then 0 else i + 1)
  }

  /** Serves ready slot `i` and moves the cursor past it. */
  function Serve(s: State, i: nat, now: u64, cap: nat): Emission
    requires i < |s.slots| && Ready(s, i, now)
  {
    var e := if s.slots[i].waiting then Retransmit(s, i, now, cap) else Transmit(s, i, now, cap);
    if e.frame == None then e else e.(state := PastSlot(e.state, i))
  }

  /** Where the scan of a poll starts. */
  function Start(s: State): (i: nat)
    requires s.slots != []
    ensures i < |s.slots|
  {
    s.cursor % |s.slots|
  }

  /** Distance from the start of the slot a poll serves, or the number of slots. */
  function Chosen(s: State, now: u64): (k: nat)
    requires s.slots != []
    ensures k <= |s.slots|
  {
    FirstReady(Reclaim(s), Start(s), 0, now)
  }

  /** A scan from the cursor: the first ready slot is served, if there is one. */
  function Scan(r: State, now: u64, cap: nat): Emission
    requires r.slots != []
  {
    var k := FirstReady(r, Start(r), 0, now);
    var w := Swept(r, Start(r), k, now);
    if k == |r.slots| then Emission(w, None)
    else
      SweptAt(r, Start(r), k, now, Ahead(|r.slots|, Start(r), k));
      Serve(w, Ahead(|r.slots|, Start(r), k), now, cap)
  }

  /** Visiting one more slot: its turn is what it was before the scan. */
  lemma SweptNext(r: State, start: nat, k: nat, now: u64)
    requires start < |r.slots| && k < |r.slots|
    ensures var i, w := Ahead(|r.slots|, start, k), Swept(r, start, k, now);
            && w.slots[i] == r.slots[i] && (Ready(w, i, now) <==> Ready(r, i, now))
            && Swept(r, start, k + 1, now) == if TurnOf(w, w.slots[i], now) == Expire
                                              then WithSlot(w, i, Expired(w.slots[i])) else w
  {
    SweptAt(r, start, k, now, Ahead(|r.slots|, start, k));
  }

  lemma ScanServes(r: State, k: nat, now: u64, cap: nat)
    requires r.slots != [] && k < |r.slots| && FirstReady(r, Start(r), 0, now) == k
    ensures var i, w := Ahead(|r.slots|, Start(r), k), Swept(r, Start(r), k, now);
            Ready(w, i, now) && Scan(r, now, cap) == Serve(w, i, now, cap)
  {
    SweptAt(r, Start(r), k, now, Ahead(|r.slots|, Start(r), k));
  }

  /** One scheduler call: reclaim, then scan. */
  function Poll(s: State, now: u64, cap: nat): Emission {
    if s.slots == [] then Emission(Reclaim(s), None) else Scan(Reclaim(s), now, cap)
  }

  // ---------- Inbound frames ----------

  /** The slot an inbound frame addresses, or the number of slots. */
  function Addressed(s: State, f: Frame): (i: nat)
    ensures i <= |s.slots|
    ensures i < |s.slots| ==> s.slots[i].active && s.slots[i].rid == f.header.sender
  {
    var i := FindSlot(s.slots, f.header.sender);
    if i == |s.slots| || f.header.receiver != s.cfg.id || f.payload.stream != s.cfg.stream then |s.slots| else i
  }

  predicate AcceptsRequest(s: State, slot: Slot, next: u32) {
    && s.oldest <= next <= Inc32(s.Latest())
    && next == Inc32(slot.acked)
    && !slot.exhausted
    && (slot.waiting ==> slot.inflight == next)
  }

  predicate AcceptsAck(slot: Slot, ackId: u32) {
    slot.waiting && slot.inflight != 0 && ackId == slot.inflight
  }

  predicate AcceptsNack(s: State, slot: Slot, expected: u32) {
    && slot.waiting && slot.inflight != 0
    && s.oldest <= expected <= Inc32(s.Latest())
    && expected == slot.inflight
  }

  /** Consumes a REQUEST, ACK or NACK. */
  function HandleRx(s: State, now: u64, f: Frame): (State, bool) {
    var i := Addressed(s, f);
    if i == |s.slots| then (s, false)
    else
      var slot := s.slots[i];
      match f.payload
      case Request(_, next) =>
        if AcceptsRequest(s, slot, next) then (WithSlot(s, i, slot.(due := now)), true) else (s, false)
      case Ack(_, ackId) =>
        if AcceptsAck(slot, ackId) then (Reclaim(WithSlot(s, i, Idle(slot).(acked := ackId))), true) else (s, false)
      case Nack(_, _, _, expected) =>
        if AcceptsNack(s, slot, expected) then (Reclaim(WithSlot(s, i, Idle(slot).(due := now))), true) else (s, false)
      case Beacon(_, _) => (s, false)
      case Data(_, _, _, _) => (s, false)
  }

  function BeaconFrame(s: State, cap: nat): Option<Frame> {
    var f := Frame(Header(s.cfg.id, 0, s.seqNo), Beacon(s.cfg.stream, s.Latest()));
    if s.seqNo == MAX_U16 || !Legal(f) || cap < FrameLength(BEACON) then None else Some(f)
  }

  // ---------- Events ----------

  datatype Event =
    | EnqueueEvent(op: Op)
    | ListsEvent(removes: seq<u32>, adds: seq<u32>)
    | RegisterEvent(rid: u16, acked: u32)
    | ProgressEvent(rid: u16, acked: u32)
    | UnregisterEvent(rid: u16)
    | PollEvent(now: u64, cap: nat)
    | RxEvent(now: u64, frame: Frame)

  /** One call of the sender's interface. A single enqueue at the last id is left out of every run. */
  function Step(s: State, e: Event): State {
    match e
    case EnqueueEvent(op) => if s.Latest() == MAX_U32 then s else Enqueue(s, op).0
    case ListsEvent(removes, adds) => EnqueueLists(s, removes, adds).0
    case RegisterEvent(rid, acked) => Register(s, rid, acked).0
    case ProgressEvent(rid, acked) => SetProgress(s, rid, acked).0
    case UnregisterEvent(rid) => Unregister(s, rid).0
    case PollEvent(now, cap) => Poll(s, now, cap).state
    case RxEvent(now, f) => HandleRx(s, now, f).0
  }
}
