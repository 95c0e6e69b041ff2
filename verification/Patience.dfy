/** How soon a slot may be given up: after all its timeouts if it is left alone, at once if old REQUESTs arrive. */
module Patience {
  import opened Words
  import opened OpFrames
  import opened Runs
  import opened SenderModel
  import opened SenderInvariant
  import opened Scheduling
  import opened PollRules

  // ---------- At once ----------

  /** Slot `i` waits, and at `now` no other is ready. */
  predicate OnlyTurn(s: State, i: nat, now: u64) {
    && Inv(s) && i < |s.slots| && s.slots[i].active && s.slots[i].waiting
    && forall j :: 0 <= j < |s.slots| && j != i ==> !Ready(s, j, now)
  }

  /** A REQUEST of slot `i`'s receiver for the operation it waits for. */
  predicate Presses(s: State, i: nat, f: Frame)
    requires i < |s.slots|
  {
    && f.payload.Request? && f.header.sender == s.slots[i].rid && f.header.receiver == s.cfg.id
    && f.payload.stream == s.cfg.stream && f.payload.next as int == s.slots[i].acked + 1
  }

  lemma PressedDue(s: State, i: nat, f: Frame, now: u64)
    requires OnlyTurn(s, i, now) && Presses(s, i, f) && s.Latest() < MAX_U32
    ensures HandleRx(s, now, f) == (WithSlot(s, i, s.slots[i].(due := now)), true)
  {
    FindsSlot(s, i);
    assert SlotOk(s, s.slots[i]);
  }

  /** One poll while slot `i` is due: a retry is spent, whether or not a frame goes out, or the slot is given up. */
  lemma DuePollSpends(s: State, i: nat, now: u64, cap: nat)
    requires OnlyTurn(s, i, now) && s.slots[i].due <= now
    ensures var t, slot := Poll(s, now, cap).state, s.slots[i];
            && |t.slots| == |s.slots| && t.cfg == s.cfg && t.log == s.log
            && if slot.retries < s.cfg.maxRetries
               then OnlyTurn(t, i, now) && t.slots[i].rid == slot.rid && t.slots[i].acked == slot.acked
                    && t.slots[i].retries as int == slot.retries + 1
               else t.slots[i] == Expired(slot)
  {
    assert SlotOk(s, s.slots[i]);
    PollInv(s, now, cap);
    if s.slots[i].retries >= s.cfg.maxRetries {
      NobodyReady(s, i, now, cap);
    } else if Poll(s, now, cap).frame.Some? {
      SentTurn(s, i, now, cap);
    } else {
      UnsentTurn(s, i, now, cap);
    }
  }

  lemma NobodyReady(s: State, i: nat, now: u64, cap: nat)
    requires OnlyTurn(s, i, now) && s.slots[i].due <= now && s.slots[i].retries >= s.cfg.maxRetries
    ensures var t := Poll(s, now, cap).state;
            |t.slots| == |s.slots| && t.cfg == s.cfg && t.log == s.log && t.slots[i] == Expired(s.slots[i])
  {
    PollSendsIffReady(s, now, cap);
    ChosenIsFirst(s, now);
    FailedPollSpends(s, now, cap);
    SweptAt(Reclaim(s), Start(s), |s.slots|, now, i);
  }

  /** What a sweep leaves unready stays unready. */
  lemma SweptUnready(s: State, k: nat, now: u64, j: nat)
    requires Inv(s) && s.slots != [] && k <= |s.slots| && j < |s.slots| && !Ready(s, j, now)
    ensures var w := Swept(Reclaim(s), Start(s), k, now);
            |w.slots| == |s.slots| && TurnOf(w, w.slots[j], now) != Resend && TurnOf(w, w.slots[j], now) != First
  {
    SweptAt(Reclaim(s), Start(s), k, now, j);
    ReadyReclaim(s, j, now);
  }

  lemma SentTurn(s: State, i: nat, now: u64, cap: nat)
    requires OnlyTurn(s, i, now) && s.slots[i].due <= now && s.slots[i].retries < s.cfg.maxRetries
    requires Poll(s, now, cap).frame.Some? && Inv(Poll(s, now, cap).state)
    ensures var t, slot := Poll(s, now, cap).state, s.slots[i];
            && |t.slots| == |s.slots| && t.cfg == s.cfg && t.log == s.log
            && OnlyTurn(t, i, now) && t.slots[i].rid == slot.rid && t.slots[i].acked == slot.acked
            && t.slots[i].retries as int == slot.retries + 1
  {
    var j := PollServesFirstReady(s, now, cap);
    assert j == i;
    var t := Poll(s, now, cap).state;
    forall m | 0 <= m < |t.slots| && m != i ensures !Ready(t, m, now) {
      SweptUnready(s, Distance(|s.slots|, Start(s), i), now, m);
    }
  }

  lemma UnsentTurn(s: State, i: nat, now: u64, cap: nat)
    requires OnlyTurn(s, i, now) && s.slots[i].due <= now && s.slots[i].retries < s.cfg.maxRetries
    requires Poll(s, now, cap).frame == None && Inv(Poll(s, now, cap).state)
    ensures var t, slot := Poll(s, now, cap).state, s.slots[i];
            && |t.slots| == |s.slots| && t.cfg == s.cfg && t.log == s.log
            && OnlyTurn(t, i, now) && t.slots[i].rid == slot.rid && t.slots[i].acked == slot.acked
            && t.slots[i].retries as int == slot.retries + 1
  {
    assert Ready(s, i, now);
    ChosenIsFirst(s, now);
    FailedPollSpends(s, now, cap);
    assert Ahead(|s.slots|, Start(s), Chosen(s, now)) == i;
    var t := Poll(s, now, cap).state;
    forall m | 0 <= m < |t.slots| && m != i ensures !Ready(t, m, now) {
      SweptUnready(s, Chosen(s, now), now, m);
    }
  }

  lemma DueKeepsTurn(s: State, i: nat, now: u64)
    requires OnlyTurn(s, i, now)
    ensures OnlyTurn(WithSlot(s, i, s.slots[i].(due := now)), i, now)
  {
    var w := WithSlot(s, i, s.slots[i].(due := now));
    assert SlotOk(s, s.slots[i]);
    WithSlotInv(s, i, s.slots[i].(due := now));
    forall j | 0 <= j < |w.slots| && j != i ensures !Ready(w, j, now) {
      assert !Ready(s, j, now);
    }
  }

  function GivenUp(i: nat): State -> bool {
    (s: State) => i < |s.slots| && s.slots[i].exhausted
  }

  /** A retry more than `n - 1` is left to slot `i`, whose turn alone it is. */
  predicate RetriesLeft(s: State, i: nat, now: u64, n: nat) {
    OnlyTurn(s, i, now) && n == s.cfg.maxRetries as int - s.slots[i].retries + 1
  }

  predicate Pressed(s: State, i: nat, f: Frame, now: u64, n: nat) {
    RetriesLeft(s, i, now, n) && Presses(s, i, f) && s.Latest() < MAX_U32
  }

  /** The same REQUEST once more, followed by a poll, at one instant. */
  function Replay(f: Frame, now: u64, cap: nat): seq<Event> {
    [RxEvent(now, f), PollEvent(now, cap)]
  }

  lemma ReplayRun(s: State, f: Frame, now: u64, cap: nat)
    ensures Run(Step, s, Replay(f, now, cap)) == Poll(HandleRx(s, now, f).0, now, cap).state
  {
    RunTwo(Step, s, RxEvent(now, f), PollEvent(now, cap));
    RxIsHandled(s, now, f);
    PollIsStep(HandleRx(s, now, f).0, now, cap);
  }

  lemma RxIsHandled(s: State, now: u64, f: Frame)
    ensures Step(s, RxEvent(now, f)) == HandleRx(s, now, f).0
  {}

  lemma PollIsStep(s: State, now: u64, cap: nat)
    ensures Step(s, PollEvent(now, cap)) == Poll(s, now, cap).state
  {}

  lemma ReplayRound(s: State, i: nat, f: Frame, now: u64, cap: nat, n: nat)
    requires Pressed(s, i, f, now, n)
    ensures var t := Poll(HandleRx(s, now, f).0, now, cap).state;
            if n <= 1 then GivenUp(i)(t) else Pressed(t, i, f, now, n - 1)
  {
    PressedDue(s, i, f, now);
    DueKeepsTurn(s, i, now);
    DuePollSpends(WithSlot(s, i, s.slots[i].(due := now)), i, now, cap);
  }

  lemma RetriesRemain(s: State, i: nat, now: u64, n: int)
    requires OnlyTurn(s, i, now) && n == s.cfg.maxRetries as int - s.slots[i].retries + 1
    ensures n > 0
  {
    assert SlotOk(s, s.slots[i]);
  }

  /**
   An old REQUEST of the receiver's, delivered once for each retry left and once
   more, each time before a poll, has the slot given up with no time passing,
   however far off its deadline was.
   */
  lemma ReplayExhausts(s: State, i: nat, f: Frame, now: u64, cap: nat, n: nat)
    requires Pressed(s, i, f, now, n)
    ensures GivenUp(i)(Run(Step, s, Times(Replay(f, now, cap), n)))
  {
    var left := (s: State, n: nat) => Pressed(s, i, f, now, n);
    RetriesRemain(s, i, now, n);
    forall s, n ensures TakesOn(Step, Replay(f, now, cap), left, GivenUp(i), s, n) {
      if Pressed(s, i, f, now, n) {
        ReplayRun(s, f, now, cap);
        ReplayRound(s, i, f, now, cap, n);
      }
    }
    TimesReach(Step, Replay(f, now, cap), left, GivenUp(i), s, n);
  }

  /** Slot `i` is due, and no poll can send. */
  predicate Blocked(s: State, i: nat, now: u64, cap: nat, n: nat) {
    RetriesLeft(s, i, now, n) && s.slots[i].due <= now && !CanSend(s, cap)
  }

  lemma BlockedRound(s: State, i: nat, now: u64, cap: nat, n: nat)
    requires Blocked(s, i, now, cap, n)
    ensures var t := Poll(s, now, cap).state; if n <= 1 then GivenUp(i)(t) else Blocked(t, i, now, cap, n - 1)
  {
    DuePollSpends(s, i, now, cap);
    if n > 1 {
      FailedPollKeeps(s, i, now, cap);
    }
  }

  /** Once the slot is due, polls that cannot send do the same: each burns a retry and none moves the deadline. */
  lemma FailedPollsExhaust(s: State, i: nat, now: u64, cap: nat, n: nat)
    requires Blocked(s, i, now, cap, n)
    ensures GivenUp(i)(Run(Step, s, Times([PollEvent(now, cap)], n)))
  {
    var left := (s: State, n: nat) => Blocked(s, i, now, cap, n);
    RetriesRemain(s, i, now, n);
    forall s, n ensures TakesOn(Step, [PollEvent(now, cap)], left, GivenUp(i), s, n) {
      if Blocked(s, i, now, cap, n) {
        RunOne(Step, s, PollEvent(now, cap));
        PollIsStep(s, now, cap);
        BlockedRound(s, i, now, cap, n);
      }
    }
    TimesReach(Step, [PollEvent(now, cap)], left, GivenUp(i), s, n);
  }

  lemma FailedPollKeeps(s: State, i: nat, now: u64, cap: nat)
    requires OnlyTurn(s, i, now) && s.slots[i].due <= now && s.slots[i].retries < s.cfg.maxRetries && !CanSend(s, cap)
    ensures var t := Poll(s, now, cap).state; i < |t.slots| && t.slots[i].due == s.slots[i].due && !CanSend(t, cap)
  {
    assert Ready(s, i, now);
    PollSendsIffReady(s, now, cap);
    ChosenIsFirst(s, now);
    FailedPollSpends(s, now, cap);
    assert Ahead(|s.slots|, Start(s), Chosen(s, now)) == i;
  }

  // ---------- Only after its timeouts ----------

  /** `start + d`, saturating. */
  function Later(start: u64, d: nat): u64 {
    if start + d > MAX_U64 then MAX_U64 else start + d
  }

  function Timeouts(k: nat, timeout: u32): nat {
    k * timeout
  }

  /** Slot `i` still waits for the same operation, with a deadline no earlier than its retries take, or has been given up. */
  predicate OnTime(s: State, i: nat, start: u64, timeout: u32, maxRetries: u8) {
    && Inv(s) && i < |s.slots| && s.slots[i].active && s.cfg.timeout == timeout && s.cfg.maxRetries == maxRetries
    && (s.slots[i].waiting || s.slots[i].exhausted)
    && (s.slots[i].waiting ==> s.slots[i].due >= Later(start, Timeouts(s.slots[i].retries + 1, timeout)))
  }

  /** Its receiver is not heard from, reset or unregistered, and polls are able to send. */
  predicate LeftAlone(s: State, e: Event, i: nat) {
    && i < |s.slots| && WellFormed(e)
    && match e
       case ProgressEvent(rid, _) => rid != s.slots[i].rid
       case UnregisterEvent(rid) => rid != s.slots[i].rid
       case PollEvent(_, cap) => CanSend(s, cap)
       case RxEvent(now, f) => !(HandleRx(s, now, f).1 && Addressed(s, f) == i)
       case _ => true
  }

  predicate GivesUp(s: State, e: Event, i: nat) {
    i < |s.slots| && !s.slots[i].exhausted && i < |Step(s, e).slots| && Step(s, e).slots[i].exhausted
  }

  /** What a poll that is able to send does to a waiting slot. */
  lemma WaitingSlotPolled(s: State, i: nat, now: u64, cap: nat)
    requires Inv(s) && i < |s.slots| && s.slots[i].active && s.slots[i].waiting && CanSend(s, cap)
    ensures s.slots[i].acked < MAX_U32 && s.slots[i].retries <= s.cfg.maxRetries
    ensures var t, slot := Poll(s, now, cap).state, s.slots[i];
            && i < |t.slots| && t.cfg == s.cfg
            && (|| t.slots[i] == slot
                || (now >= slot.due && slot.retries == s.cfg.maxRetries && t.slots[i] == Expired(slot))
                || (now >= slot.due && slot.retries < s.cfg.maxRetries && t.slots[i] == SentSlot(s, slot, now)))
  {
    assert SlotOk(s, s.slots[i]);
    PollSendsIffReady(s, now, cap);
    SweptAt(Reclaim(s), Start(s), Chosen(s, now), now, i);
    if Poll(s, now, cap).frame.Some? {
      var j := PollServesFirstReady(s, now, cap);
    } else {
      ChosenIsFirst(s, now);
      FailedPollSpends(s, now, cap);
    }
  }

  lemma OthersOnly(s: State, e: Event, i: nat)
    requires Inv(s) && i < |s.slots| && s.slots[i].active && LeftAlone(s, e, i) && !e.PollEvent?
    ensures i < |Step(s, e).slots| && Step(s, e).slots[i] == s.slots[i] && Step(s, e).cfg == s.cfg
  {
    FindsSlot(s, i);
    if Step(s, e).slots != s.slots {
      var j := ChangedSlot(s, e);
      ChangesOther(s, e, i, j);
    }
  }

  lemma ChangesOther(s: State, e: Event, i: nat, j: nat)
    requires Inv(s) && i < |s.slots| && s.slots[i].active && LeftAlone(s, e, i) && !e.PollEvent?
    requires FindSlot(s.slots, s.slots[i].rid) == i
    requires j < |s.slots| && Step(s, e).slots == s.slots[j := Step(s, e).slots[j]]
    ensures Step(s, e).slots[i] == s.slots[i]
  {}

  lemma LaterAdds(start: u64, k: nat, now: u64, timeout: u32)
    requires now >= Later(start, Timeouts(k, timeout))
    ensures Deadline(now, timeout) >= Later(start, Timeouts(k + 1, timeout))
  {
    assert (k + 1) * timeout == k * timeout + timeout;
  }

  predicate GivesUpBefore(s: State, e: Event, i: nat, end: u64) {
    GivesUp(s, e, i) && (e.PollEvent? ==> e.now < end)
  }

  /** When slot `i` is given up, all its timeouts have passed. */
  lemma OnTimeStep(s: State, e: Event, i: nat, start: u64, timeout: u32, maxRetries: u8, end: u64)
    requires OnTime(s, i, start, timeout, maxRetries) && LeftAlone(s, e, i)
    requires end == Later(start, Timeouts(maxRetries + 1, timeout))
    ensures OnTime(Step(s, e), i, start, timeout, maxRetries) && !GivesUpBefore(s, e, i, end)
  {
    StepInv(s, e);
    if e.PollEvent? {
      PollOnTime(s, e.now, e.cap, i, start, timeout, maxRetries, end);
    } else {
      OthersOnly(s, e, i);
    }
  }

  lemma PollOnTime(s: State, now: u64, cap: nat, i: nat, start: u64, timeout: u32, maxRetries: u8, end: u64)
    requires OnTime(s, i, start, timeout, maxRetries) && CanSend(s, cap) && Inv(Poll(s, now, cap).state)
    requires end == Later(start, Timeouts(maxRetries + 1, timeout))
    ensures var t := Poll(s, now, cap).state;
            OnTime(t, i, start, timeout, maxRetries) && (t.slots[i].exhausted && !s.slots[i].exhausted ==> now >= end)
  {
    if s.slots[i].waiting {
      OnTimePoll(s, now, cap, i, start, timeout, maxRetries, end);
    } else {
      PollExhausted(s, now, cap, i);
      PollKeepsConfig(s, now, cap);
    }
  }

  lemma PollKeepsConfig(s: State, now: u64, cap: nat)
    ensures Poll(s, now, cap).state.cfg == s.cfg
  {}

  lemma OnTimePoll(s: State, now: u64, cap: nat, i: nat, start: u64, timeout: u32, maxRetries: u8, end: u64)
    requires OnTime(s, i, start, timeout, maxRetries) && s.slots[i].waiting && CanSend(s, cap)
    requires Inv(Poll(s, now, cap).state) && end == Later(start, Timeouts(maxRetries + 1, timeout))
    ensures var t := Poll(s, now, cap).state;
            OnTime(t, i, start, timeout, maxRetries) && (t.slots[i].exhausted && !s.slots[i].exhausted ==> now >= end)
  {
    WaitingSlotPolled(s, i, now, cap);
    if now >= s.slots[i].due {
      LaterAdds(start, s.slots[i].retries + 1, now, timeout);
    }
  }

  lemma OnTimeRun(s: State, es: seq<Event>, i: nat, start: u64, end: u64)
    requires Inv(s) && i < |s.slots| && s.slots[i].active && s.slots[i].waiting && s.slots[i].retries == 0
    requires s.slots[i].due == Later(start, s.cfg.timeout) && Always(Step, (s, e) => LeftAlone(s, e, i), s, es)
    requires end == Later(start, Timeouts(s.cfg.maxRetries + 1, s.cfg.timeout))
    ensures !Happens(Step, (s, e) => GivesUpBefore(s, e, i, end), s, es)
  {
    var timeout, maxRetries := s.cfg.timeout, s.cfg.maxRetries;
    var inv := s => OnTime(s, i, start, timeout, maxRetries);
    var alone := (s, e) => LeftAlone(s, e, i);
    var early := (s, e) => GivesUpBefore(s, e, i, end);
    assert Timeouts(1, timeout) == timeout;
    forall s, e | inv(s) && alone(s, e) ensures inv(Step(s, e)) && !early(s, e) {
      OnTimeStep(s, e, i, start, timeout, maxRetries, end);
    }
    NeverHappens(Step, inv, alone, early, s, es);
  }

  /** A first transmission is due again when the timeout has passed. */
  lemma FirstServed(s: State, start: u64, cap: nat, i: nat)
    requires Inv(s) && Serves(s, start, cap, i) && !s.slots[i].waiting
    ensures var t := Poll(s, start, cap).state;
            && i < |t.slots| && t.slots[i].active && t.slots[i].waiting && t.slots[i].retries == 0 && t.cfg == s.cfg
            && t.slots[i].due == Later(start, s.cfg.timeout)
  {
    var j := PollSentRule(s, start, cap);
    var k := PollServesFirstReady(s, start, cap);
    assert k == i;
    FirstSendable(s, start, k);
    SamePlace(s, i, j);
  }

  lemma SamePlace(s: State, i: nat, j: nat)
    requires i < |s.slots| && j < |s.slots| && Places(s, i) == Places(s, j)
    ensures i == j
  {}

  /** The slot is given up by something other than a poll at `from` or later, or at the end of the clock. */
  predicate GivesUpSooner(s: State, e: Event, i: nat, from: nat) {
    GivesUp(s, e, i) && (e.PollEvent? ==> e.now < from && e.now < 0xFFFF_FFFF_FFFF_FFFF)
  }

  /**
   A slot that a poll sent its next operation for the first time is given up, in
   any run after it that leaves the slot alone, only by a poll at least
   `max_retries + 1` timeouts later.
   */
  lemma GivenUpOnTime(s: State, start: u64, cap: nat, i: nat, es: seq<Event>, from: nat)
    requires Inv(s) && Serves(s, start, cap, i) && !s.slots[i].waiting
    requires Always(Step, (s, e) => LeftAlone(s, e, i), Poll(s, start, cap).state, es)
    requires from == start + (s.cfg.maxRetries + 1) * s.cfg.timeout
    ensures !Happens(Step, (s, e) => GivesUpSooner(s, e, i, from), Poll(s, start, cap).state, es)
  {
    var t, end := Poll(s, start, cap).state, Later(start, Timeouts(s.cfg.maxRetries + 1, s.cfg.timeout));
    PollInv(s, start, cap);
    FirstServed(s, start, cap, i);
    OnTimeRun(t, es, i, start, end);
    var early := (s, e) => GivesUpBefore(s, e, i, end);
    var sooner := (s, e) => GivesUpSooner(s, e, i, from);
    HappensNot(Step, early, sooner, t, es);
  }

  // ---------- And then it is ----------

  /** No other slot ever has anything to be sent. */
  predicate OthersRest(s: State, i: nat) {
    forall j: nat :: j < |s.slots| && j != i && s.slots[j].active ==>
      s.slots[j].exhausted || (!s.slots[j].waiting && s.slots[j].acked >= |s.log|)
  }

  /** Slot `i` waits and falls due `timeout` after `time`. */
  predicate Retrying(s: State, i: nat, time: nat, opId: nat, retries: nat) {
    && Inv(s) && OthersRest(s, i) && i < |s.slots| && s.cfg.id != 0 && s.cfg.stream != 0
    && var slot := s.slots[i];
       && slot.active && slot.waiting && slot.due as int == time + s.cfg.timeout && slot.acked as int + 1 == opId
       && slot.retries as int == retries
  }

  /** The event is a poll that sends operation `opId` to receiver `rid`. */
  predicate SendsOp(s: State, e: Event, rid: u16, opId: nat) {
    && e.PollEvent? && Poll(s, e.now, e.cap).frame.Some?
    && var f := Poll(s, e.now, e.cap).frame.value;
       f.header.receiver == rid && f.payload.Data? && f.payload.opId == opId
  }

  lemma OnlyThisSendable(s: State, i: nat, now: u64)
    requires OthersRest(s, i)
    ensures forall j: nat :: Sendable(s, j, now) || Spent(s, j, now) ==> j == i
  {}

  /** The slot is resent on its timeout while a retry is left. */
  lemma TimeoutResends(s: State, i: nat, time: nat, opId: nat, retries: nat, now: u64, cap: nat)
    requires Retrying(s, i, time, opId, retries) && now as int == time + s.cfg.timeout && now + s.cfg.timeout <= MAX_U64
    requires retries < s.cfg.maxRetries && s.seqNo < 65535 && cap >= 26
    ensures var t := Poll(s, now, cap).state;
            && Retrying(t, i, now, opId, retries + 1) && t.cfg == s.cfg && t.seqNo as int == s.seqNo + 1
            && t.slots[i].rid == s.slots[i].rid && SendsOp(s, PollEvent(now, cap), s.slots[i].rid, opId)
  {
    PollInv(s, now, cap);
    OnlyThisSendable(s, i, now);
    assert SlotOk(s, s.slots[i]) && Sendable(s, i, now);
    PollSendsExactly(s, now, cap);
    var j := PollSentRule(s, now, cap);
    StillResting(s, Poll(s, now, cap).state, i, now);
  }

  lemma StillResting(s: State, t: State, i: nat, now: u64)
    requires OthersRest(s, i) && OthersPassed(s, t, i, now) && t.log == s.log
    ensures OthersRest(t, i)
  {}

  /** With no retry left it is given up on its timeout. */
  lemma TimeoutGivesUp(s: State, i: nat, time: nat, opId: nat, retries: nat, now: u64, cap: nat)
    requires Retrying(s, i, time, opId, retries) && now as int == time + s.cfg.timeout && retries >= s.cfg.maxRetries
    ensures var t := Poll(s, now, cap).state;
            i < |t.slots| && t.slots[i].exhausted && Poll(s, now, cap).frame == None
  {
    OnlyThisSendable(s, i, now);
    assert !Sendable(s, i, now);
    PollSendsExactly(s, now, cap);
    PollIdleRule(s, now, cap);
  }

  function SendingTo(rid: u16, opId: nat): (State, Event) -> bool {
    (s: State, e: Event) => SendsOp(s, e, rid, opId)
  }

  /** When `n` timeouts remain until `end`, the last included. */
  function TimeBefore(end: nat, timeout: nat, n: nat): int {
    end - (n as int - 1) * timeout
  }

  function Clock(time: int): u64 {
    if 0 <= time <= MAX_U64 then time else MAX_U64
  }

  function PollsUntil(end: nat, timeout: nat, cap: nat): nat -> Event {
    (n: nat) => PollEvent(Clock(TimeBefore(end, timeout, n)), cap)
  }

  /** Slot `i` falls due with `n - 1` retries left, and there are sequence numbers for all of them. */
  predicate WillRetry(s: State, i: nat, due: int, opId: nat, n: nat, rid: u16, timeout: nat) {
    && 0 < n <= s.cfg.maxRetries as int + 1 && 0 <= due - timeout
    && Retrying(s, i, due - timeout, opId, s.cfg.maxRetries as int + 1 - n)
    && s.slots[i].rid == rid && timeout == s.cfg.timeout && s.seqNo as int + n <= 65536
  }

  lemma NextTimeout(s: State, i: nat, now: u64, opId: nat, n: nat, rid: u16, timeout: nat, cap: nat)
    requires WillRetry(s, i, now, opId, n, rid, timeout) && cap >= 26 && (n > 1 ==> now + timeout <= MAX_U64)
    ensures var t := Poll(s, now, cap).state;
            && (SendsOp(s, PollEvent(now, cap), rid, opId) <==> n > 1)
            && if n == 1 then GivenUp(i)(t) else WillRetry(t, i, now + timeout, opId, n - 1, rid, timeout)
  {
    var time, retries: nat := now - timeout, s.cfg.maxRetries as int + 1 - n;
    if n > 1 {
      TimeoutResends(s, i, time, opId, retries, now, cap);
    } else {
      TimeoutGivesUp(s, i, time, opId, retries, now, cap);
    }
  }

  lemma TimesDescend(end: nat, timeout: nat, n: nat)
    requires n > 1 && TimeBefore(end, timeout, n) >= 0 && end <= MAX_U64
    ensures TimeBefore(end, timeout, n - 1) == TimeBefore(end, timeout, n) + timeout <= MAX_U64
  {
    assert (n as int - 1) * timeout == (n as int - 2) * timeout + timeout;
  }

  predicate OnSchedule(s: State, i: nat, end: nat, opId: nat, rid: u16, timeout: nat, n: nat) {
    n > 0 && TimeBefore(end, timeout, n) >= 0 && WillRetry(s, i, TimeBefore(end, timeout, n), opId, n, rid, timeout)
  }

  lemma TimeWithin(end: nat, timeout: nat, n: nat)
    requires n > 0 && end <= MAX_U64
    ensures TimeBefore(end, timeout, n) <= MAX_U64
  {}

  lemma StepOnSchedule(s: State, i: nat, end: nat, opId: nat, rid: u16, timeout: nat, cap: nat, n: nat)
    requires OnSchedule(s, i, end, opId, rid, timeout, n) && end <= MAX_U64 && cap >= 26
    ensures var e := PollsUntil(end, timeout, cap)(n);
            && (SendsOp(s, e, rid, opId) <==> n > 1)
            && if n == 1 then GivenUp(i)(Step(s, e)) else OnSchedule(Step(s, e), i, end, opId, rid, timeout, n - 1)
  {
    TimeWithin(end, timeout, n);
    if n > 1 {
      TimesDescend(end, timeout, n);
    }
    var now: u64 := TimeBefore(end, timeout, n);
    NextTimeout(s, i, now, opId, n, rid, timeout, cap);
    PollIsStep(s, now, cap);
  }

  lemma RetriesUsedUp(s: State, i: nat, end: nat, opId: nat, rid: u16, timeout: nat, cap: nat, n: nat)
    requires OnSchedule(s, i, end, opId, rid, timeout, n) && end <= MAX_U64 && cap >= 26
    ensures var es := Descending(PollsUntil(end, timeout, cap), n);
            GivenUp(i)(Run(Step, s, es)) && Count(Step, SendingTo(rid, opId), s, es) == n - 1
  {
    var left := (s: State, n: nat) => OnSchedule(s, i, end, opId, rid, timeout, n);
    forall s, n ensures StepsDown(Step, PollsUntil(end, timeout, cap), left, SendingTo(rid, opId), GivenUp(i), s, n) {
      if OnSchedule(s, i, end, opId, rid, timeout, n) {
        StepOnSchedule(s, i, end, opId, rid, timeout, cap, n);
      }
    }
    DescendingReach(Step, PollsUntil(end, timeout, cap), left, SendingTo(rid, opId), GivenUp(i), s, n);
  }

  /** The polls are `timeout` apart, the first one `timeout` after `start` and the last at `end`. */
  predicate EachTimeout(es: seq<Event>, start: u64, timeout: nat, cap: nat, end: nat) {
    && end == start + |es| * timeout <= MAX_U64
    && forall k :: 0 <= k < |es| ==> es[k] == PollEvent(Clock(start + (k + 1) * timeout), cap)
  }

  lemma TimesAgree(start: int, timeout: int, n: int, k: int)
    ensures start + n * timeout - (n - k - 1) * timeout == start + (k + 1) * timeout
  {}

  lemma PollsDescend(es: seq<Event>, start: u64, timeout: nat, cap: nat, end: nat)
    requires EachTimeout(es, start, timeout, cap, end)
    ensures es == Descending(PollsUntil(end, timeout, cap), |es|)
  {
    forall k | 0 <= k < |es| ensures es[k] == Descending(PollsUntil(end, timeout, cap), |es|)[k] {
      DescendingAt(PollsUntil(end, timeout, cap), |es|, k);
      TimesAgree(start, timeout, |es|, k);
    }
  }

  /**
   Polled at each timeout with nothing heard, the slot is sent its operation
   `max_retries` times more and is given up by the poll `max_retries + 1`
   timeouts after the first transmission.
   */
  lemma GivenUpAfterTimeouts(s: State, start: u64, cap: nat, i: nat, es: seq<Event>, timeout: nat, end: nat)
    requires Inv(s) && Serves(s, start, cap, i) && !s.slots[i].waiting && OthersRest(s, i)
    requires |es| == s.cfg.maxRetries + 1 && s.seqNo as int + 1 + |es| <= 65536
    requires timeout == s.cfg.timeout && EachTimeout(es, start, timeout, cap, end)
    ensures var t, slot := Poll(s, start, cap).state, s.slots[i];
            && GivenUp(i)(Run(Step, t, es))
            && Count(Step, SendingTo(slot.rid, slot.acked as int + 1), t, es) == s.cfg.maxRetries
  {
    FirstTime(es, start, timeout, cap, end);
    FirstRetrying(s, start, cap, i);
    PollsDescend(es, start, timeout, cap, end);
    UsedUpFrom(s, Poll(s, start, cap).state, i, start, end, s.slots[i].acked + 1, s.slots[i].rid, timeout, cap, |es|);
  }

  lemma UsedUpFrom(
    s: State, t: State, i: nat, start: u64, end: nat, opId: nat, rid: u16, timeout: nat, cap: nat, n: nat)
    requires Retrying(t, i, start, opId, 0) && t.slots[i].rid == rid && t.cfg == s.cfg && timeout == s.cfg.timeout
    requires n == s.cfg.maxRetries + 1 && t.seqNo as int + n <= 65536 && cap >= 26 && end <= MAX_U64
    requires TimeBefore(end, timeout, n) == start + timeout
    ensures var es := Descending(PollsUntil(end, timeout, cap), n);
            GivenUp(i)(Run(Step, t, es)) && Count(Step, SendingTo(rid, opId), t, es) == s.cfg.maxRetries
  {
    RetriesUsedUp(t, i, end, opId, rid, timeout, cap, n);
  }

  lemma FirstTime(es: seq<Event>, start: u64, timeout: nat, cap: nat, end: nat)
    requires es != [] && EachTimeout(es, start, timeout, cap, end)
    ensures TimeBefore(end, timeout, |es|) == start + timeout <= end <= MAX_U64
  {
    TimesAgree(start, timeout, |es|, 0);
    assert |es| * timeout == (|es| - 1) * timeout + timeout;
  }

  lemma FirstRetrying(s: State, start: u64, cap: nat, i: nat)
    requires Inv(s) && Serves(s, start, cap, i) && !s.slots[i].waiting && OthersRest(s, i)
    requires start + s.cfg.timeout <= MAX_U64
    ensures s.slots[i].acked < MAX_U32 && cap >= 26
    ensures var t := Poll(s, start, cap).state;
            && Retrying(t, i, start, s.slots[i].acked + 1, 0) && t.slots[i].rid == s.slots[i].rid && t.cfg == s.cfg
            && t.seqNo as int == s.seqNo + 1
  {
    PollInv(s, start, cap);
    PollSendsExactly(s, start, cap);
    OnlyThisSendable(s, i, start);
    var j := PollSentRule(s, start, cap);
    FirstServed(s, start, cap, i);
    StillResting(s, Poll(s, start, cap).state, i, start);
  }
}
