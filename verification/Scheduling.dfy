/** The retransmitting scheduler: when it sends, whom it serves, and how often it may. */
module Scheduling {
  import opened Words
  import opened OpFrames
  import opened Operations
  import opened Runs
  import opened SenderModel
  import opened SenderInvariant

  // ---------- When a poll sends ----------

  /** Everything an emission needs besides a ready slot. */
  predicate CanSend(s: State, cap: nat) {
    s.seqNo != MAX_U16 && cap >= FrameLength(DATA) && s.cfg.id != 0 && s.cfg.stream != 0
  }

  lemma EmitExact(s: State, i: nat, opId: u32, now: u64, cap: nat)
    requires Inv(s) && i < |s.slots| && s.slots[i].active && s.oldest <= opId <= s.Latest()
    ensures Emit(s, i, opId, now, cap).frame
            == if CanSend(s, cap) then Some(DataFrame(s, s.slots[i].rid, opId, s.log[opId - 1])) else None
  {
    assert s.log[opId - 1] in s.log;
  }

  /** The operation a ready slot is sent is the one after its last acknowledged. */
  lemma ServeExact(s: State, i: nat, now: u64, cap: nat)
    requires Inv(s) && i < |s.slots| && Ready(s, i, now)
    ensures var slot := s.slots[i];
            slot.acked < s.Latest() &&
            Serve(s, i, now, cap).frame
            == if CanSend(s, cap) then Some(DataFrame(s, slot.rid, slot.acked + 1, s.log[slot.acked])) else None
  {
    var slot := s.slots[i];
    assert SlotOk(s, slot);
    if slot.waiting {
      var retried := slot.(retries := slot.retries + 1);
      WithSlotInv(s, i, retried);
      EmitExact(WithSlot(s, i, retried), i, slot.inflight, now, cap);
    } else {
      EmitExact(s, i, Inc32(slot.acked), now, cap);
    }
  }

  lemma ReadyReclaim(s: State, i: nat, now: u64)
    requires Inv(s) && i < |s.slots|
    ensures Ready(Reclaim(s), i, now) == Ready(s, i, now)
  {
    ReclaimInv(s);
    assert SlotOk(s, s.slots[i]);
  }

  /** Whether a poll serves slot `i`. */
  predicate Serves(s: State, now: u64, cap: nat, i: nat) {
    i < |s.slots| && Poll(s, now, cap).frame.Some? && Distance(|s.slots|, Start(s), i) == Chosen(s, now)
  }

  /** A poll sends exactly when some slot is ready and emission is possible. */
  lemma PollSendsIffReady(s: State, now: u64, cap: nat)
    requires Inv(s)
    ensures Poll(s, now, cap).frame.Some? <==> CanSend(s, cap) && exists i :: 0 <= i < |s.slots| && Ready(s, i, now)
  {
    if s.slots != [] {
      var r, n, k := Reclaim(s), |s.slots|, Chosen(s, now);
      ReclaimInv(s);
      SweptInv(r, Start(s), k, now);
      ChosenIsFirst(s, now);
      if k < n {
        SweptAt(r, Start(s), k, now, Ahead(n, Start(s), k));
        ServeExact(Swept(r, Start(s), k, now), Ahead(n, Start(s), k), now, cap);
      }
    }
  }

  /** The chosen slot is ready, and no ready slot comes earlier in cyclic order. */
  lemma ChosenIsFirst(s: State, now: u64)
    requires Inv(s) && s.slots != []
    ensures var n, k := |s.slots|, Chosen(s, now);
            && (k < n ==> Ready(s, Ahead(n, Start(s), k), now))
            && forall j :: 0 <= j < n && Distance(n, Start(s), j) < k ==> !Ready(s, j, now)
  {
    var r, n, k := Reclaim(s), |s.slots|, Chosen(s, now);
    FirstReadyIsFirst(r, Start(s), 0, now);
    if k < n {
      ReadyReclaim(s, Ahead(n, Start(s), k), now);
    }
    forall j | 0 <= j < n && Distance(n, Start(s), j) < k ensures !Ready(s, j, now) {
      assert j == Ahead(n, Start(s), Distance(n, Start(s), j));
      ReadyReclaim(s, j, now);
    }
  }

  /** Slot `i` after it was sent its next operation. */
  function SentSlot(s: State, slot: Slot, now: u64): Slot
    requires slot.acked < MAX_U32 && slot.retries < 255
  {
    slot.(waiting := true, exhausted := false, inflight := slot.acked + 1, due := Deadline(now, s.cfg.timeout),
          retries := if slot.waiting then slot.retries + 1 else 0)
  }

  lemma ServeState(s: State, i: nat, now: u64, cap: nat)
    requires Inv(s) && i < |s.slots| && Ready(s, i, now) && CanSend(s, cap)
    ensures s.slots[i].acked < MAX_U32 && (s.slots[i].waiting ==> s.slots[i].retries < 255)
    ensures var slot := s.slots[i];
            Serve(s, i, now, cap).state
            == s.(seqNo := s.seqNo + 1, cursor := if i + 1 == |s.slots| then 0 else i + 1,
                  slots := s.slots[i := SentSlot(s, slot.(retries := if slot.waiting then slot.retries else 0), now)])
  {
    ServeExact(s, i, now, cap);
    assert SlotOk(s, s.slots[i]);
  }

  /**
   What a successful poll does: it sends the first ready slot in cyclic order
   the operation after its last acknowledged one, spends a sequence number,
   moves the cursor past that slot, and of the other slots only marks as
   exhausted the overdue ones it passed that were out of retries.
   */
  lemma PollServesFirstReady(s: State, now: u64, cap: nat) returns (i: nat)
    requires Inv(s) && Poll(s, now, cap).frame.Some?
    ensures Serves(s, now, cap, i) && Ready(s, i, now) && s.slots[i].acked < s.Latest() && s.seqNo < MAX_U16
    ensures s.slots[i].waiting ==> s.slots[i].retries < 255
    ensures Poll(s, now, cap).frame == Some(DataFrame(s, s.slots[i].rid, s.slots[i].acked + 1, s.log[s.slots[i].acked]))
    ensures var slot, w := s.slots[i], Swept(Reclaim(s), Start(s), Distance(|s.slots|, Start(s), i), now);
            Poll(s, now, cap).state
            == w.(seqNo := s.seqNo + 1, cursor := if i + 1 == |s.slots| then 0 else i + 1,
                  slots := w.slots[i := SentSlot(s, slot.(retries := if slot.waiting then slot.retries else 0), now)])
    ensures forall j :: 0 <= j < |s.slots| && Distance(|s.slots|, Start(s), j) < Distance(|s.slots|, Start(s), i) ==>
            !Ready(s, j, now)
  {
    i := Ahead(|s.slots|, Start(s), Chosen(s, now));
    ChosenIsFirst(s, now);
    ServesChosen(s, now, cap, i);
  }

  lemma ServesChosen(s: State, now: u64, cap: nat, i: nat)
    requires Inv(s) && Poll(s, now, cap).frame.Some?
    requires Chosen(s, now) < |s.slots| && i == Ahead(|s.slots|, Start(s), Chosen(s, now))
    ensures s.slots[i].acked < s.Latest() && s.seqNo < MAX_U16 && (s.slots[i].waiting ==> s.slots[i].retries < 255)
    ensures Poll(s, now, cap).frame == Some(DataFrame(s, s.slots[i].rid, s.slots[i].acked + 1, s.log[s.slots[i].acked]))
    ensures var slot, w := s.slots[i], Swept(Reclaim(s), Start(s), Chosen(s, now), now);
            Poll(s, now, cap).state
            == w.(seqNo := s.seqNo + 1, cursor := if i + 1 == |s.slots| then 0 else i + 1,
                  slots := w.slots[i := SentSlot(s, slot.(retries := if slot.waiting then slot.retries else 0), now)])
  {
    var w := Swept(Reclaim(s), Start(s), Chosen(s, now), now);
    PollIsServe(s, now, cap, i);
    ServeExact(w, i, now, cap);
    ServeState(w, i, now, cap);
  }

  /** A poll that finds a ready slot serves it after the sweep. */
  lemma PollIsServe(s: State, now: u64, cap: nat, i: nat)
    requires Inv(s) && s.slots != [] && Chosen(s, now) < |s.slots| && i == Ahead(|s.slots|, Start(s), Chosen(s, now))
    ensures var w := Swept(Reclaim(s), Start(s), Chosen(s, now), now);
            && Inv(w) && w.slots[i] == s.slots[i] && Ready(w, i, now) && Poll(s, now, cap) == Serve(w, i, now, cap)
            && w.cfg == s.cfg && w.seqNo == s.seqNo && w.log == s.log
  {
    var r, k := Reclaim(s), Chosen(s, now);
    ReclaimInv(s);
    SweptInv(r, Start(s), k, now);
    SweptNext(r, Start(s), k, now);
    ScanServes(r, k, now, cap);
  }

  /** What a failed emission to a ready slot leaves behind. */
  lemma FailedServe(s: State, i: nat, now: u64, cap: nat)
    requires Inv(s) && i < |s.slots| && Ready(s, i, now) && Serve(s, i, now, cap).frame == None
    ensures s.slots[i].waiting ==> s.slots[i].retries < 255
    ensures var slot := s.slots[i];
            Serve(s, i, now, cap).state
            == s.(seqNo := if s.seqNo == MAX_U16 then MAX_U16 else s.seqNo + 1,
                  slots := s.slots[i := slot.(retries := if slot.waiting then slot.retries + 1 else 0)])
  {
    ServeExact(s, i, now, cap);
    assert SlotOk(s, s.slots[i]);
  }

  /**
   A poll that sends nothing spends a sequence number exactly when one is left
   and some slot is ready, and burns a retry of the first ready slot exactly
   when that one waits, even at the last sequence number. Nothing else changes
   but history, and overdue slots out of retries.
   */
  lemma FailedPollSpends(s: State, now: u64, cap: nat)
    requires Inv(s) && Poll(s, now, cap).frame == None
    ensures var t := Poll(s, now, cap).state;
            && (t.seqNo != s.seqNo <==> s.seqNo < MAX_U16 && exists i :: 0 <= i < |s.slots| && Ready(s, i, now))
            && (t.seqNo == s.seqNo || t.seqNo as int == s.seqNo + 1)
    ensures s.slots != [] ==>
              var n, k, t := |s.slots|, Chosen(s, now), Poll(s, now, cap).state;
              var w := Swept(Reclaim(s), Start(s), k, now);
              if k == n then t == w
              else
                var i := Ahead(n, Start(s), k);
                var slot := s.slots[i];
                (slot.waiting ==> slot.retries < 255) &&
                t == w.(seqNo := t.seqNo,
                        slots := w.slots[i := slot.(retries := if slot.waiting then slot.retries + 1 else 0)])
  {
    if s.slots != [] {
      var r, n, k := Reclaim(s), |s.slots|, Chosen(s, now);
      var w := Swept(r, Start(s), k, now);
      ReclaimInv(s);
      SweptInv(r, Start(s), k, now);
      ChosenIsFirst(s, now);
      if k < n {
        PollIsServe(s, now, cap, Ahead(n, Start(s), k));
        FailedServe(w, Ahead(n, Start(s), k), now, cap);
      }
    }
  }

  /** A slot just served is due again exactly when the timeout has passed, or the clock ended, and it has a retry left. */
  lemma ServedSlotRests(s: State, now: u64, cap: nat, i: nat, later: u64)
    requires Inv(s) && Serves(s, now, cap, i)
    ensures var t := Poll(s, now, cap).state;
            i < |t.slots| &&
            (Ready(t, i, later) <==>
               (later as int >= now + s.cfg.timeout || later == MAX_U64) && t.slots[i].retries < s.cfg.maxRetries)
  {
    var j := PollServesFirstReady(s, now, cap);
    assert j == i;
  }

  /** Reclaiming keeps what an idle slot needs next. */
  lemma IdleSlotIsReady(s: State, i: nat, slot: Slot, now: u64)
    requires i < |s.slots| && slot.active && !slot.waiting && !slot.exhausted
    ensures var t := Reclaim(WithSlot(s, i, slot));
            i < |t.slots| && t.slots[i] == slot && (Ready(t, i, now) <==> s.oldest <= Inc32(slot.acked) <= s.Latest())
  {
    var w := WithSlot(s, i, slot);
    FloorIsLowest(w.slots, Inc32(w.Latest()));
    assert w.slots[i].active;
  }

  /** What a poll at once would do for a slot whose frame was just accepted. */
  lemma AnsweredSlotIsReady(s: State, now: u64, f: Frame)
    requires Inv(s) && HandleRx(s, now, f).1
    ensures var t, i := HandleRx(s, now, f).0, Addressed(s, f);
            && i < |s.slots| == |t.slots|
            && (f.payload.Request? ==>
                  (Ready(t, i, now) <==> if s.slots[i].waiting then s.slots[i].retries < s.cfg.maxRetries
                                         else s.slots[i].acked < s.Latest()))
            && (f.payload.Nack? ==> Ready(t, i, now) && t.slots[i].acked == s.slots[i].acked)
            && (f.payload.Ack? ==>
                  t.slots[i].acked == s.slots[i].acked + 1 && (Ready(t, i, now) <==> t.slots[i].acked < s.Latest()))
  {
    var i := Addressed(s, f);
    var slot := s.slots[i];
    assert SlotOk(s, slot);
    match f.payload
    case Ack(_, ackId) => IdleSlotIsReady(s, i, Idle(slot).(acked := ackId), now);
    case Nack(_, _, _, _) => IdleSlotIsReady(s, i, Idle(slot).(due := now), now);
    case _ =>
  }

  /** A NACK is taken exactly from a slot waiting for what it asks for, and never once the last id is in use. */
  lemma NackTakenExactly(s: State, now: u64, f: Frame)
    requires Inv(s) && f.payload.Nack? && Addressed(s, f) < |s.slots|
    ensures var slot := s.slots[Addressed(s, f)];
            HandleRx(s, now, f).1 <==> slot.waiting && f.payload.expected == slot.acked + 1 && s.Latest() < MAX_U32
  {
    assert SlotOk(s, s.slots[Addressed(s, f)]);
  }

  /** A REQUEST is taken exactly for the next operation of a slot not given up, and never once the last id is in use. */
  lemma RequestTakenExactly(s: State, now: u64, f: Frame)
    requires Inv(s) && f.payload.Request? && Addressed(s, f) < |s.slots|
    ensures var slot := s.slots[Addressed(s, f)];
            HandleRx(s, now, f).1 <==>
              && !slot.exhausted && f.payload.next as int == slot.acked + 1 && s.Latest() < MAX_U32
              && s.oldest <= f.payload.next <= s.Latest() + 1
  {
    assert SlotOk(s, s.slots[Addressed(s, f)]);
  }

  /** A progress reset within the retained history revives a slot, exhausted or not. */
  lemma ResetSlotIsReady(s: State, rid: u16, acked: u32, now: u64)
    requires Inv(s) && SetProgress(s, rid, acked).1 && s.oldest <= acked + 1 <= s.Latest()
    ensures var t, i := SetProgress(s, rid, acked).0, FindSlot(s.slots, rid); i < |t.slots| && Ready(t, i, now)
  {
    var i := FindSlot(s.slots, rid);
    IdleSlotIsReady(s, i, Idle(s.slots[i]).(acked := acked), now);
  }

  /** Some receiver registered earlier still needs the operation after `acked` or one before it. */
  predicate StillNeeded(s: State, acked: u32) {
    s.oldest <= acked + 1 && exists j :: 0 <= j < |s.slots| && s.slots[j].active && Inc32(s.slots[j].acked) <= acked + 1
  }

  /**
   A new receiver is ready exactly when the operation after its position is
   one that some receiver registered before it still needs. With nobody
   registered before it, it is not: registration first drops the history.
   */
  lemma NewcomerIsReady(s: State, rid: u16, acked: u32, now: u64)
    requires Inv(s) && Register(s, rid, acked).1 && FindSlot(s.slots, rid) == |s.slots| && acked < s.Latest() < MAX_U32
    ensures var t, i := Register(s, rid, acked).0, FreeSlot(s.slots);
            && i < |t.slots| && t.slots[i].active && t.slots[i].rid == rid
            && (Ready(t, i, now) <==> StillNeeded(s, acked))
  {
    FloorIsLowest(s.slots, Inc32(s.Latest()));
    assert SlotOk(s, s.slots[FreeSlot(s.slots)]);
  }

  // ---------- Bounded waiting ----------

  predicate Allowed(s: State, e: Event) {
    WellFormed(e)
  }

  predicate Sends(s: State, e: Event) {
    e.PollEvent? && Poll(s, e.now, e.cap).frame.Some?
  }

  /** Serving another slot strictly shortens the wait of a ready one. */
  lemma ServingOthersHelps(s: State, now: u64, cap: nat, i: nat)
    requires Inv(s) && i < |s.slots| && Ready(s, i, now) && Poll(s, now, cap).frame.Some? && !Serves(s, now, cap, i)
    ensures var t := Poll(s, now, cap).state;
            |t.slots| == |s.slots| && Distance(|s.slots|, Start(t), i) < Distance(|s.slots|, Start(s), i)
  {
    var j := PollServesFirstReady(s, now, cap);
    var n := |s.slots|;
    assert Distance(n, Start(s), j) < Distance(n, Start(s), i);
    StartAfter(s, Poll(s, now, cap).state, j);
  }

  lemma StartAfter(s: State, t: State, j: nat)
    requires j < |s.slots| == |t.slots| && t.cursor == if j + 1 == |s.slots| then 0 else j + 1
    ensures Start(t) == t.cursor
  {
    SmallMod(t.cursor, |t.slots|);
  }

  lemma CursorMoves(s: State, e: Event)
    ensures |Step(s, e).slots| == |s.slots|
    ensures !Sends(s, e) ==> Step(s, e).cursor == s.cursor
  {
    if e.PollEvent? {
      PollCursor(s, e.now, e.cap);
    }
  }

  lemma PollCursor(s: State, now: u64, cap: nat)
    ensures var e := Poll(s, now, cap);
            |e.state.slots| == |s.slots| && (e.frame == None ==> e.state.cursor == s.cursor)
  {}

  /** How many successful polls a slot may still have to wait. */
  function Wait(s: State, i: nat): nat {
    if i < |s.slots| then Distance(|s.slots|, Start(s), i) else 0
  }

  predicate ServesSlot(s: State, e: Event, i: nat) {
    e.PollEvent? && Serves(s, e.now, e.cap, i)
  }

  predicate ReadyIfPolled(s: State, e: Event, i: nat) {
    e.PollEvent? ==> i < |s.slots| && Ready(s, i, e.now)
  }

  lemma StepWait(s: State, e: Event, i: nat)
    requires Inv(s) && i < |s.slots| && ReadyIfPolled(s, e, i) && !ServesSlot(s, e, i)
    ensures Wait(Step(s, e), i) + (if Sends(s, e) then 1 else 0) <= Wait(s, i)
  {
    CursorMoves(s, e);
    if Sends(s, e) {
      ServingOthersHelps(s, e.now, e.cap, i);
    }
  }

  /**
   In every run of the sender, a slot that is ready at each poll until it is
   served is served before more successful polls go by than its distance from
   the cursor, hence within `receiver_capacity` successful polls.
   */
  lemma BoundedWaiting(s: State, es: seq<Event>, i: nat)
    requires Inv(s) && Always(Step, Allowed, s, es) && i < |s.slots|
    requires Until(Step, (s, e) => ReadyIfPolled(s, e, i), (s, e) => ServesSlot(s, e, i), s, es)
    requires Count(Step, Sends, s, es) > Wait(s, i)
    ensures Happens(Step, (s, e) => ServesSlot(s, e, i), s, es)
    ensures Wait(s, i) < |s.slots|
  {
    var inv := (s: State) => Inv(s) && i < |s.slots|;
    var wait := (s: State) => Wait(s, i);
    var ready := (s, e) => ReadyIfPolled(s, e, i);
    var hit := (s, e) => ServesSlot(s, e, i);
    assert Preserves(Step, inv, Allowed) by {
      forall s, e | inv(s) && Allowed(s, e) ensures inv(Step(s, e)) {
        StepInv(s, e);
        CursorMoves(s, e);
      }
    }
    assert CountsDown(Step, inv, Allowed, wait, ready, Sends, hit) by {
      forall s, e | inv(s) && Allowed(s, e) && ready(s, e) && !hit(s, e)
        ensures wait(Step(s, e)) + (if Sends(s, e) then 1 else 0) <= wait(s)
      {
        StepWait(s, e, i);
      }
    }
    Countdown(Step, inv, Allowed, wait, ready, Sends, hit, s, es);
  }

  // ---------- Transmission budget ----------

  /** Transmissions a slot may still make without hearing from its receiver. */
  function SlotBudget(maxRetries: u8, slot: Slot): int {
    if !slot.active || slot.exhausted then 0
    else if slot.waiting then maxRetries - slot.retries
    else maxRetries + 1
  }

  function SlotsBudget(maxRetries: u8, slots: seq<Slot>): int {
    if slots == [] then 0
    else SlotsBudget(maxRetries, slots[..|slots| - 1]) + SlotBudget(maxRetries, slots[|slots| - 1])
  }

  function Budget(s: State): int {
    SlotsBudget(s.cfg.maxRetries, s.slots)
  }

  lemma {:induction false} BudgetOfUpdate(m: u8, slots: seq<Slot>, i: nat, slot: Slot)
    requires i < |slots|
    ensures SlotsBudget(m, slots[i := slot]) == SlotsBudget(m, slots) - SlotBudget(m, slots[i]) + SlotBudget(m, slot)
  {
    var n := |slots| - 1;
    if i < n {
      BudgetOfUpdate(m, slots[..n], i, slot);
      assert slots[i := slot][..n] == slots[..n][i := slot];
    } else {
      assert slots[i := slot][..n] == slots[..n];
    }
  }

  lemma {:induction false} BudgetBounds(m: u8, slots: seq<Slot>)
    requires forall i :: 0 <= i < |slots| ==> slots[i].retries <= m
    ensures 0 <= SlotsBudget(m, slots) <= |slots| * (m + 1)
  {
    if slots != [] {
      BudgetBounds(m, slots[..|slots| - 1]);
      Granted(1, |slots| - 1, m + 1);
    }
  }

  lemma {:induction false} SweepingIsFree(s: State, start: nat, k: nat, now: u64)
    requires Inv(s) && start < |s.slots| && k <= |s.slots|
    ensures Budget(Swept(s, start, k, now)) == Budget(s)
  {
    if k > 0 {
      var i := Ahead(|s.slots|, start, k - 1);
      SweepingIsFree(s, start, k - 1, now);
      SweptAt(s, start, k - 1, now, i);
      assert SlotOk(s, s.slots[i]);
      BudgetOfUpdate(s.cfg.maxRetries, SweptSlots(s, start, k - 1, now), i, Expired(s.slots[i]));
    }
  }

  /** Every successful poll spends exactly one transmission; a failing one never adds any. */
  lemma PollSpendsOne(s: State, now: u64, cap: nat)
    requires Inv(s)
    ensures var e := Poll(s, now, cap);
            if e.frame.Some? then Budget(e.state) == Budget(s) - 1 else Budget(e.state) <= Budget(s)
  {
    if s.slots != [] {
      var r, n, k := Reclaim(s), |s.slots|, Chosen(s, now);
      ReclaimInv(s);
      SweptInv(r, Start(s), k, now);
      SweepingIsFree(r, Start(s), k, now);
      if k < n {
        SweptAt(r, Start(s), k, now, Ahead(n, Start(s), k));
        ServeSpendsOne(Swept(r, Start(s), k, now), Ahead(n, Start(s), k), now, cap);
      }
    }
  }

  lemma ServeSpendsOne(s: State, i: nat, now: u64, cap: nat)
    requires Inv(s) && i < |s.slots| && Ready(s, i, now)
    ensures var e := Serve(s, i, now, cap);
            if e.frame.Some? then Budget(e.state) == Budget(s) - 1 else Budget(e.state) <= Budget(s)
  {
    var e := Serve(s, i, now, cap);
    assert e.state.slots == s.slots[i := e.state.slots[i]];
    BudgetOfUpdate(s.cfg.maxRetries, s.slots, i, e.state.slots[i]);
  }

  /** The events that may refill the budget: accepted ACKs and NACKs, registrations and progress resets. */
  predicate Refills(s: State, e: Event) {
    || (e.RxEvent? && HandleRx(s, e.now, e.frame).1 && (e.frame.payload.Ack? || e.frame.payload.Nack?))
    || (e.RegisterEvent? && Register(s, e.rid, e.acked).1)
    || (e.ProgressEvent? && SetProgress(s, e.rid, e.acked).1)
  }

  lemma StepBudget(s: State, e: Event)
    requires Inv(s)
    ensures var t := Step(s, e);
            t.cfg.maxRetries == s.cfg.maxRetries &&
            if Sends(s, e) then Budget(t) == Budget(s) - 1
            else if Refills(s, e) then Budget(t) <= Budget(s) + s.cfg.maxRetries + 1
            else Budget(t) <= Budget(s)
  {
    if e.PollEvent? {
      PollSpendsOne(s, e.now, e.cap);
    } else {
      OtherStepBudget(s, e);
    }
  }

  lemma OtherStepBudget(s: State, e: Event)
    requires Inv(s) && !e.PollEvent?
    ensures var t := Step(s, e);
            t.cfg.maxRetries == s.cfg.maxRetries &&
            Budget(t) <= Budget(s) + (if Refills(s, e) then s.cfg.maxRetries + 1 else 0)
  {
    var t := Step(s, e);
    if t.slots != s.slots {
      var i := ChangedSlot(s, e);
      assert SlotOk(s, s.slots[i]);
      BudgetOfUpdate(s.cfg.maxRetries, s.slots, i, t.slots[i]);
    }
  }

  /** Apart from polls, an event changes at most one slot. */
  lemma ChangedSlot(s: State, e: Event) returns (i: nat)
    requires !e.PollEvent? && Step(s, e).slots != s.slots
    ensures i < |s.slots| && Step(s, e).slots == s.slots[i := Step(s, e).slots[i]]
  {
    match e
    case RegisterEvent(rid, _) => i := FreeSlot(s.slots);
    case ProgressEvent(rid, _) => i := FindSlot(s.slots, rid);
    case UnregisterEvent(rid) => i := FindSlot(s.slots, rid);
    case RxEvent(_, f) => i := Addressed(s, f);
    case EnqueueEvent(_) =>
    case ListsEvent(_, _) =>
  }

  lemma SpendingAmortizes(inv: State -> bool, grant: nat)
    requires forall s :: inv(s) <==> Inv(s) && s.cfg.maxRetries == grant - 1
    ensures Preserves(Step, inv, Allowed)
    ensures Amortizes(Step, inv, Allowed, Budget, Sends, Refills, grant)
  {
    forall s, e | inv(s) && Allowed(s, e)
      ensures inv(Step(s, e))
      ensures Budget(Step(s, e)) + (if Sends(s, e) then 1 else 0) <= Budget(s) + (if Refills(s, e) then grant else 0)
    {
      StepInv(s, e);
      StepBudget(s, e);
    }
  }

  lemma SpentSoFar(s: State, es: seq<Event>, grant: nat)
    requires Inv(s) && Always(Step, Allowed, s, es) && grant == s.cfg.maxRetries + 1
    ensures var t := Run(Step, s, es);
            Inv(t) && Count(Step, Sends, s, es) + Budget(t) <= Budget(s) + Count(Step, Refills, s, es) * grant
  {
    var inv := (s: State) => Inv(s) && s.cfg.maxRetries == grant - 1;
    SpendingAmortizes(inv, grant);
    Amortized(Step, inv, Allowed, Budget, Sends, Refills, grant, s, es);
    RunPreserves(Step, inv, Allowed, s, es);
  }

  /**
   Over every run, transmissions are paid for: by what the slots held at the
   start and by at most `max_retries + 1` for each time a receiver was heard
   from, registered or reset.
   */
  lemma TransmissionBound(s: State, es: seq<Event>)
    requires Inv(s) && Always(Step, Allowed, s, es)
    ensures var grant: nat := s.cfg.maxRetries + 1;
            Count(Step, Sends, s, es) <= Budget(s) + Count(Step, Refills, s, es) * grant
            && Budget(s) <= |s.slots| * grant
  {
    SpentSoFar(s, es, s.cfg.maxRetries + 1);
    BudgetRange(Run(Step, s, es));
    BudgetRange(s);
  }

  lemma BudgetRange(s: State)
    requires Inv(s)
    ensures 0 <= Budget(s) <= |s.slots| * (s.cfg.maxRetries + 1)
  {
    forall i | 0 <= i < |s.slots| ensures s.slots[i].retries <= s.cfg.maxRetries {
      assert SlotOk(s, s.slots[i]);
    }
    BudgetBounds(s.cfg.maxRetries, s.slots);
  }

  // ---------- Exhaustion ----------

  predicate PollOrFrame(s: State, e: Event) {
    e.PollEvent? || e.RxEvent?
  }

  predicate Exhausted(s: State, i: nat, slot: Slot) {
    Inv(s) && i < |s.slots| && s.slots[i] == slot && slot.exhausted
  }

  lemma StepExhausted(s: State, e: Event, i: nat, slot: Slot)
    requires Exhausted(s, i, slot) && PollOrFrame(s, e)
    ensures Exhausted(Step(s, e), i, slot) && !ServesSlot(s, e, i)
  {
    StepInv(s, e);
    assert SlotOk(s, slot);
    if e.PollEvent? {
      PollExhausted(s, e.now, e.cap, i);
    }
  }

  /** Serving one slot leaves the others alone. */
  lemma ServeFrame(s: State, j: nat, i: nat, now: u64, cap: nat)
    requires j < |s.slots| && Ready(s, j, now) && i < |s.slots| && i != j
    ensures |Serve(s, j, now, cap).state.slots| == |s.slots| && Serve(s, j, now, cap).state.slots[i] == s.slots[i]
  {}

  lemma PollExhausted(s: State, now: u64, cap: nat, i: nat)
    requires Inv(s) && i < |s.slots| && s.slots[i].exhausted
    ensures var t := Poll(s, now, cap).state;
            i < |t.slots| && t.slots[i] == s.slots[i] && !Serves(s, now, cap, i)
  {
    var r, n, k := Reclaim(s), |s.slots|, Chosen(s, now);
    ChosenIsFirst(s, now);
    SweptAt(r, Start(s), k, now, i);
    if k < n {
      var j := Ahead(n, Start(s), k);
      assert j != i;
      SweptAt(r, Start(s), k, now, j);
      ServeFrame(Swept(r, Start(s), k, now), j, i, now, cap);
    }
  }

  /** No sequence of polls and inbound frames revives an exhausted slot, changes it or sends to it. */
  lemma ExhaustedStays(s: State, es: seq<Event>, i: nat)
    requires Inv(s) && Always(Step, PollOrFrame, s, es) && i < |s.slots| && s.slots[i].exhausted
    ensures i < |Run(Step, s, es).slots| && Run(Step, s, es).slots[i] == s.slots[i]
    ensures !Happens(Step, (s, e) => ServesSlot(s, e, i), s, es)
  {
    var slot := s.slots[i];
    var inv := s => Exhausted(s, i, slot);
    var hit := (s, e) => ServesSlot(s, e, i);
    forall s, e | inv(s) && PollOrFrame(s, e) ensures inv(Step(s, e)) && !hit(s, e) {
      StepExhausted(s, e, i, slot);
    }
    RunPreserves(Step, inv, PollOrFrame, s, es);
    NeverHappens(Step, inv, PollOrFrame, hit, s, es);
  }

  // ---------- The last id ----------

  /** Once the last id is in use the floor is 0. */
  lemma LastIdReclaimsNothing(s: State)
    requires Inv(s) && s.Latest() == MAX_U32
    ensures Floor(s.slots, Inc32(s.Latest())) == 0 && Reclaim(s) == s
  {
    FloorIsLowest(s.slots, 0);
  }

  predicate Full(s: State, log: seq<Op>, oldest: u32) {
    Inv(s) && s.log == log && |log| == MAX_U32 && s.oldest == oldest
  }

  lemma FullStep(s: State, e: Event, log: seq<Op>, oldest: u32)
    requires Full(s, log, oldest) && WellFormed(e)
    ensures Full(Step(s, e), log, oldest)
  {
    StepInv(s, e);
    LastIdReclaimsNothing(s);
    if e.PollEvent? {
      FullPoll(s, e.now, e.cap);
    } else if Step(s, e).slots != s.slots {
      var i := ChangedSlot(s, e);
      FloorIsLowest(s.slots[i := Step(s, e).slots[i]], 0);
    }
  }

  lemma FullPoll(s: State, now: u64, cap: nat)
    requires Reclaim(s) == s
    ensures Poll(s, now, cap).state.log == s.log && Poll(s, now, cap).state.oldest == s.oldest
  {}

  /** From then on nothing is enqueued and no history is dropped in any run, whatever is acknowledged. */
  lemma LastIdFreezesHistory(s: State, es: seq<Event>)
    requires Inv(s) && s.Latest() == MAX_U32 && Always(Step, Allowed, s, es)
    ensures Run(Step, s, es).log == s.log && Run(Step, s, es).oldest == s.oldest
  {
    var full := t => Full(t, s.log, s.oldest);
    forall t, e | full(t) && Allowed(t, e) ensures full(Step(t, e)) {
      FullStep(t, e, s.log, s.oldest);
    }
    RunPreserves(Step, full, Allowed, s, es);
  }
}
