/** What a poll does, in terms of the sender's fields and the clock alone. */
module PollRules {
  import opened Words
  import opened Framing
  import opened OpFrames
  import opened Operations
  import opened Runs
  import opened SenderModel
  import opened SenderInvariant
  import opened Scheduling

  /** Slot `i` has something to be sent at `now`: once more if it is overdue with a retry left, or for the first time. */
  predicate Sendable(s: State, i: nat, now: u64) {
    i < |s.slots| &&
    var slot := s.slots[i];
    && slot.active && !slot.exhausted
    && if slot.waiting then slot.due <= now && slot.retries < s.cfg.maxRetries
       else s.oldest <= slot.acked + 1 <= |s.log|
  }

  /** Slot `i` is overdue and has no retry left. */
  predicate Spent(s: State, i: nat, now: u64) {
    i < |s.slots| &&
    var slot := s.slots[i];
    slot.active && !slot.exhausted && slot.waiting && slot.due <= now && slot.retries >= s.cfg.maxRetries
  }

  /** How many places slot `i` comes after the cursor, round the array. */
  function Places(s: State, i: nat): nat
    requires i < |s.slots|
  {
    var c := s.cursor % |s.slots|;
    if i >= c then i - c else i + |s.slots| - c
  }

  lemma ReadyRule(s: State, i: nat, now: u64)
    requires i < |s.slots| && Inv(s)
    ensures Ready(s, i, now) <==> Sendable(s, i, now)
    ensures TurnOf(s, s.slots[i], now) == Expire <==> Spent(s, i, now)
  {}

  lemma SpentReclaim(s: State, i: nat, now: u64)
    requires i < |s.slots| && Inv(s)
    ensures TurnOf(Reclaim(s), s.slots[i], now) == Expire <==> Spent(s, i, now)
  {}

  /** A poll sends exactly if some slot has something to be sent, a sequence number is left and the frame can be encoded. */
  lemma PollSendsExactly(s: State, now: u64, cap: nat)
    requires Inv(s)
    ensures Poll(s, now, cap).frame.Some? <==>
              && s.seqNo < 65535 && cap >= 26 && s.cfg.id != 0 && s.cfg.stream != 0
              && exists i: nat :: Sendable(s, i, now)
  {
    PollSendsIffReady(s, now, cap);
    forall i: nat | i < |s.slots| ensures Ready(s, i, now) <==> Sendable(s, i, now) {
      ReadyRule(s, i, now);
    }
  }

  /** The overdue slot given up. */
  function GivenUp(slot: Slot): Slot {
    Slot(slot.rid, slot.acked, 0, slot.due, false, 0, slot.active, true)
  }

  /** Slots passed before slot `i` that are spent were given up; all others but `i` are as they were. */
  predicate OthersPassed(s: State, t: State, i: nat, now: u64) {
    && i < |s.slots| == |t.slots|
    && forall j: nat :: j < |s.slots| && j != i ==>
         t.slots[j] == if Spent(s, j, now) && Places(s, j) < Places(s, i) then GivenUp(s.slots[j]) else s.slots[j]
  }

  lemma SweptRule(s: State, i: nat, now: u64, slots: seq<Slot>)
    requires Inv(s) && i < |s.slots|
    requires slots == SweptSlots(Reclaim(s), Start(s), Places(s, i), now)
    ensures forall j: nat :: j < |s.slots| ==>
              slots[j] == if Spent(s, j, now) && Places(s, j) < Places(s, i) then GivenUp(s.slots[j]) else s.slots[j]
  {
    forall j: nat | j < |s.slots|
      ensures slots[j] == if Spent(s, j, now) && Places(s, j) < Places(s, i) then GivenUp(s.slots[j]) else s.slots[j]
    {
      SweptAt(Reclaim(s), Start(s), Places(s, i), now, j);
      SpentReclaim(s, j, now);
    }
  }

  /** `now + timeout`, or the end of the clock. */
  predicate FallsDue(due: u64, now: u64, timeout: u32) {
    due as int == if now + timeout < 0x1_0000_0000_0000_0000 then now + timeout else 0xFFFF_FFFF_FFFF_FFFF
  }

  /** Slot `i` of `t` waits for the operation after its position in `s`, once more or for the first time. */
  predicate WasSent(s: State, t: State, i: nat, now: u64) {
    && i < |s.slots| && i < |t.slots| && s.slots[i].acked < |s.log|
    && var slot, after := s.slots[i], t.slots[i];
       && after == Slot(slot.rid, slot.acked, slot.acked + 1, after.due, true, after.retries, true, false)
       && after.retries as int == (if slot.waiting then slot.retries + 1 else 0)
       && FallsDue(after.due, now, s.cfg.timeout)
  }

  lemma SentSlotRule(s: State, i: nat, now: u64, slot: Slot)
    requires i < |s.slots| && s.slots[i].active && s.slots[i].acked < |s.log|
    requires s.slots[i].waiting ==> s.slots[i].retries < 255
    requires slot == SentSlot(s, s.slots[i].(retries := if s.slots[i].waiting then s.slots[i].retries else 0), now)
    ensures var before := s.slots[i];
            && slot == Slot(before.rid, before.acked, before.acked + 1, slot.due, true, slot.retries, true, false)
            && slot.retries as int == (if before.waiting then before.retries + 1 else 0)
            && FallsDue(slot.due, now, s.cfg.timeout)
  {}

  lemma FirstSendable(s: State, now: u64, i: nat)
    requires Inv(s) && i < |s.slots| && Ready(s, i, now)
    requires forall j :: 0 <= j < |s.slots| && Distance(|s.slots|, Start(s), j) < Distance(|s.slots|, Start(s), i) ==>
               !Ready(s, j, now)
    ensures Sendable(s, i, now) && forall j: nat :: Sendable(s, j, now) ==> Places(s, i) <= Places(s, j)
  {
    ReadyRule(s, i, now);
    forall j: nat | Sendable(s, j, now) ensures Places(s, i) <= Places(s, j) {
      ReadyRule(s, j, now);
    }
  }

  /**
   A poll that sends serves the first sendable slot after the cursor with the
   operation after its position. The slot then waits until `timeout` from now,
   or for ever if that is past the end of the clock; its retries count up, or
   start at 0. The cursor moves past it, a sequence number is spent, history is
   reclaimed, and spent slots passed on the way are given up.
   */
  lemma PollSentRule(s: State, now: u64, cap: nat) returns (i: nat)
    requires Inv(s) && Poll(s, now, cap).frame.Some?
    ensures Sendable(s, i, now) && forall j: nat :: Sendable(s, j, now) ==> Places(s, i) <= Places(s, j)
    ensures s.slots[i].acked < |s.log|
    ensures var slot, op := s.slots[i], s.log[s.slots[i].acked];
            Poll(s, now, cap).frame.value
            == Frame(Header(s.cfg.id, slot.rid, s.seqNo), Data(s.cfg.stream, slot.acked + 1, op.opType, op.value))
    ensures var t := Poll(s, now, cap).state;
            && OthersPassed(s, t, i, now) && WasSent(s, t, i, now)
            && t == Reclaim(s).(seqNo := t.seqNo, cursor := t.cursor, slots := t.slots)
            && t.seqNo as int == s.seqNo + 1 && t.cursor as int == (i + 1) % |s.slots|
  {
    i := PollServesFirstReady(s, now, cap);
    FirstSendable(s, now, i);
    SentShape(s, now, i, Poll(s, now, cap).state);
  }

  lemma SentShape(s: State, now: u64, i: nat, t: State)
    requires Inv(s) && i < |s.slots| && s.slots[i].active && s.slots[i].acked < |s.log| && s.seqNo < MAX_U16
    requires s.slots[i].waiting ==> s.slots[i].retries < 255
    requires var slot, w := s.slots[i], Swept(Reclaim(s), Start(s), Places(s, i), now);
             t == w.(seqNo := s.seqNo + 1, cursor := if i + 1 == |s.slots| then 0 else i + 1,
                     slots := w.slots[i := SentSlot(s, slot.(retries := if slot.waiting then slot.retries else 0), now)])
    ensures OthersPassed(s, t, i, now) && WasSent(s, t, i, now)
    ensures t == Reclaim(s).(seqNo := t.seqNo, cursor := t.cursor, slots := t.slots)
    ensures t.seqNo as int == s.seqNo + 1 && t.cursor as int == (i + 1) % |s.slots|
  {
    SweptRule(s, i, now, Swept(Reclaim(s), Start(s), Places(s, i), now).slots);
    SentSlotRule(s, i, now, t.slots[i]);
    CursorRule(i, |s.slots|);
  }

  lemma CursorRule(i: nat, n: nat)
    requires i < n
    ensures (i + 1) % n == if i + 1 == n then 0 else i + 1
  {}

  /** A poll that finds nothing to send gives up every spent slot, and only reclaims history besides. */
  lemma PollIdleRule(s: State, now: u64, cap: nat)
    requires Inv(s) && forall i: nat :: !Sendable(s, i, now)
    ensures var t := Poll(s, now, cap).state;
            && t == Reclaim(s).(slots := t.slots) && |t.slots| == |s.slots|
            && forall j: nat :: j < |s.slots| ==> t.slots[j] == if Spent(s, j, now) then GivenUp(s.slots[j]) else s.slots[j]
  {
    PollSendsExactly(s, now, cap);
    if s.slots != [] {
      ChosenIsFirst(s, now);
      forall i: nat | i < |s.slots| ensures !Ready(s, i, now) {
        ReadyRule(s, i, now);
      }
      FailedPollSpends(s, now, cap);
      forall j: nat | j < |s.slots|
        ensures Poll(s, now, cap).state.slots[j] == if Spent(s, j, now) then GivenUp(s.slots[j]) else s.slots[j]
      {
        SweptAt(Reclaim(s), Start(s), |s.slots|, now, j);
        SpentReclaim(s, j, now);
      }
    }
  }

  /**
   A poll that has something to send but cannot still burns a retry of the slot
   it would have served if that one waits, and a sequence number if one is left.
   */
  lemma PollFailedRule(s: State, now: u64, cap: nat, i: nat)
    requires Inv(s) && Poll(s, now, cap).frame == None && Sendable(s, i, now)
    requires forall j: nat :: Sendable(s, j, now) ==> Places(s, i) <= Places(s, j)
    ensures var t, slot := Poll(s, now, cap).state, s.slots[i];
            && OthersPassed(s, t, i, now)
            && t == Reclaim(s).(seqNo := t.seqNo, slots := t.slots)
            && t.seqNo as int == (if s.seqNo < 65535 then s.seqNo + 1 else s.seqNo)
            && t.slots[i] == slot.(retries := t.slots[i].retries)
            && t.slots[i].retries as int == if slot.waiting then slot.retries + 1 else slot.retries
  {
    FirstIsChosen(s, now, i);
    assert SlotOk(s, s.slots[i]);
    FailedPollSpends(s, now, cap);
    FailedShape(s, now, i, Poll(s, now, cap).state);
  }

  lemma FailedShape(s: State, now: u64, i: nat, t: State)
    requires Inv(s) && i < |s.slots| && (s.slots[i].waiting ==> s.slots[i].retries < 255)
    requires var slot, w := s.slots[i], Swept(Reclaim(s), Start(s), Places(s, i), now);
             t == w.(seqNo := t.seqNo,
                     slots := w.slots[i := slot.(retries := if slot.waiting then slot.retries + 1 else 0)])
    ensures OthersPassed(s, t, i, now) && t == Reclaim(s).(seqNo := t.seqNo, slots := t.slots)
    ensures t.slots[i] == s.slots[i].(retries := t.slots[i].retries)
    ensures t.slots[i].retries as int == if s.slots[i].waiting then s.slots[i].retries + 1 else 0
  {
    SweptRule(s, i, now, Swept(Reclaim(s), Start(s), Places(s, i), now).slots);
  }

  lemma FirstIsChosen(s: State, now: u64, i: nat)
    requires Inv(s) && Sendable(s, i, now) && forall j: nat :: Sendable(s, j, now) ==> Places(s, i) <= Places(s, j)
    ensures Ready(s, i, now) && Chosen(s, now) < |s.slots| && Ahead(|s.slots|, Start(s), Chosen(s, now)) == i
  {
    ReadyRule(s, i, now);
    ChosenIsFirst(s, now);
    ReadyRule(s, Ahead(|s.slots|, Start(s), Chosen(s, now)), now);
  }
}
