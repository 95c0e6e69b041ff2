/** How many transmissions any interleaving of polls, answers and new operations can cause. */
module Transmissions {
  import opened Words
  import opened Runs
  import opened SenderModel
  import opened SenderInvariant
  import opened Scheduling
  import opened Truncation
  import opened Convergence

  /** Polls, frames of any kind, new operations, and receivers leaving: nobody joins or is reset. */
  predicate Ongoing(s: State, e: Event) {
    WellFormed(e) && !e.RegisterEvent? && !e.ProgressEvent?
  }

  predicate TakesAck(s: State, e: Event) {
    e.RxEvent? && HandleRx(s, e.now, e.frame).1 && e.frame.payload.Ack?
  }

  predicate TakesNack(s: State, e: Event) {
    e.RxEvent? && HandleRx(s, e.now, e.frame).1 && e.frame.payload.Nack?
  }

  // ---------- The operations lacking ----------

  lemma {:induction false} SameLag(top: u32, a: seq<Slot>, b: seq<Slot>)
    requires |a| == |b| && forall i :: 0 <= i < |a| ==> a[i].active == b[i].active && a[i].acked == b[i].acked
    ensures SlotsLag(top, a) == SlotsLag(top, b)
  {
    if a != [] {
      SameLag(top, a[..|a| - 1], b[..|b| - 1]);
    }
  }

  /** Measured against any later end of the log, an ACK taken lowers what is lacking by one and nothing raises it. */
  lemma StepLag(s: State, e: Event, top: u32)
    requires Inv(s) && Ongoing(s, e) && s.Latest() <= top
    ensures SlotsLag(top, Step(s, e).slots) + (if TakesAck(s, e) then 1 else 0) <= SlotsLag(top, s.slots)
  {
    var t := Step(s, e);
    if e.PollEvent? {
      PollKeepsPositions(s, e.now, e.cap);
      SameLag(top, s.slots, t.slots);
    } else if t.slots != s.slots {
      var i := ChangedSlot(s, e);
      LagOfUpdate(top, s.slots, i, t.slots[i]);
      ChangedLag(s, e, i, top);
    } else if TakesAck(s, e) {
      AckChanges(s, e);
    }
  }

  lemma AckChanges(s: State, e: Event)
    requires Inv(s) && TakesAck(s, e)
    ensures var i := Addressed(s, e.frame);
            && i < |s.slots| && s.slots[i].waiting && s.slots[i].acked < s.Latest()
            && Step(s, e).slots == s.slots[i := Idle(s.slots[i]).(acked := s.slots[i].acked + 1)]
  {
    assert SlotOk(s, s.slots[Addressed(s, e.frame)]);
  }

  lemma ChangedLag(s: State, e: Event, i: nat, top: u32)
    requires Inv(s) && Ongoing(s, e) && s.Latest() <= top && !e.PollEvent?
    requires i < |s.slots| && Step(s, e).slots == s.slots[i := Step(s, e).slots[i]] && Step(s, e).slots != s.slots
    ensures SlotLag(top, Step(s, e).slots[i]) + (if TakesAck(s, e) then 1 else 0) <= SlotLag(top, s.slots[i])
  {
    if TakesAck(s, e) {
      AckChanges(s, e);
    }
  }

  // ---------- Whole runs ----------

  lemma StepGrows(s: State, e: Event)
    requires Inv(s)
    ensures |s.log| <= |Step(s, e).log|
  {
    if e.PollEvent? {
      PollKeepsLog(s, e.now, e.cap);
    }
  }

  lemma PollKeepsLog(s: State, now: u64, cap: nat)
    ensures Poll(s, now, cap).state.log == s.log
  {}

  lemma {:induction false} RunGrows(s: State, es: seq<Event>)
    requires Inv(s) && Always(Step, Ongoing, s, es)
    ensures |s.log| <= |Run(Step, s, es).log| && Inv(Run(Step, s, es))
    decreases |es|
  {
    if es != [] {
      StepInv(s, es[0]);
      StepGrows(s, es[0]);
      RunGrows(Step(s, es[0]), es[1..]);
    }
  }

  /** The ACKs a run can take: one for each operation some registered receiver lacks, those enqueued on the way included. */
  lemma {:induction false} AcksTaken(s: State, es: seq<Event>, top: u32)
    requires Inv(s) && Always(Step, Ongoing, s, es) && |Run(Step, s, es).log| <= top
    ensures Count(Step, TakesAck, s, es) + SlotsLag(top, Run(Step, s, es).slots) <= SlotsLag(top, s.slots)
    decreases |es|
  {
    RunGrows(s, es);
    if es != [] {
      StepInv(s, es[0]);
      StepLag(s, es[0], top);
      AcksTaken(Step(s, es[0]), es[1..], top);
    }
  }

  lemma {:induction false} AnswersRefill(s: State, es: seq<Event>)
    requires Always(Step, Ongoing, s, es)
    ensures Count(Step, Refills, s, es) == Count(Step, TakesAck, s, es) + Count(Step, TakesNack, s, es)
    decreases |es|
  {
    if es != [] {
      AnswersRefill(Step(s, es[0]), es[1..]);
    }
  }

  lemma {:induction false} OngoingAllowed(s: State, es: seq<Event>)
    requires Always(Step, Ongoing, s, es)
    ensures Always(Step, Allowed, s, es)
    decreases |es|
  {
    if es != [] {
      OngoingAllowed(Step(s, es[0]), es[1..]);
    }
  }

  /**
   Transmissions still possible while the log ends at `top`: the budget, and
   `max_retries + 1` for each operation lacking and each of `nacks`.
   */
  function Left(s: State, top: u32, nacks: nat): int {
    Budget(s) + (SlotsLag(top, s.slots) + nacks) * (s.cfg.maxRetries + 1)
  }

  /**
   However polls, frames and new operations interleave, transmissions are paid
   for by what the slots held at the start, by the operations the receivers
   lacked or were given since, and by the NACKs taken: `max_retries + 1` for
   each of the latter two.
   */
  lemma TransmissionsPaid(s: State, es: seq<Event>)
    requires Inv(s) && Always(Step, Ongoing, s, es)
    ensures var t := Run(Step, s, es);
            && |t.log| <= MAX_U32
            && Count(Step, Sends, s, es) <= Left(s, |t.log|, Count(Step, TakesNack, s, es))
  {
    var top := |Run(Step, s, es).log|;
    RunGrows(s, es);
    AcksTaken(s, es, top);
    AnswersRefill(s, es);
    OngoingAllowed(s, es);
    TransmissionBound(s, es);
    Scaled(Count(Step, Refills, s, es), SlotsLag(top, s.slots) + Count(Step, TakesNack, s, es), s.cfg.maxRetries + 1);
  }

  lemma Scaled(a: nat, b: nat, grant: nat)
    requires a <= b
    ensures a * grant <= b * grant
  {}
}
