/**
 Delivery without any order: however polls, frames and callbacks interleave and
 whatever is lost, repeated or delayed, enough polls leave every receiver with
 the whole log or given up.
 */
module Settling {
  import opened Words
  import opened OpFrames
  import opened Operations
  import opened Runs
  import S = SenderModel
  import I = SenderInvariant
  import Scheduling
  import Transmissions
  import opened Replication
  import opened Truncation
  import opened Convergence

  // ---------- The sender ----------

  /** Nothing will be sent to this slot: it was given up, or has the whole log, or needs what is no longer retained. */
  predicate SlotSettled(s: S.State, slot: S.Slot) {
    slot.active ==> slot.exhausted || slot.acked >= s.Latest() || slot.acked + 1 < s.oldest
  }

  predicate Settled(s: S.State) {
    forall i :: 0 <= i < |s.slots| ==> SlotSettled(s, s.slots[i])
  }

  /** Polls, frames of any kind, and receivers leaving. */
  predicate Quiet(s: S.State, e: S.Event) {
    e.PollEvent? || e.RxEvent? || e.UnregisterEvent?
  }

  /** A poll that is able to send and finds every waiting slot due. */
  predicate DuePoll(s: S.State, e: S.Event) {
    && e.PollEvent? && Scheduling.CanSend(s, e.cap)
    && forall i :: 0 <= i < |s.slots| && s.slots[i].active && s.slots[i].waiting ==> s.slots[i].due <= e.now
  }

  lemma SettledUnready(s: S.State, i: nat, now: u64)
    requires I.Inv(s) && Settled(s) && i < |s.slots|
    ensures !s.slots[i].waiting && !S.Ready(s, i, now)
  {
    assert SlotSettled(s, s.slots[i]) && I.SlotOk(s, s.slots[i]);
  }

  /** A poll that finds no slot ready: the overdue ones are given up, the others stay. */
  lemma IdlePoll(s: S.State, now: u64, cap: nat)
    requires I.Inv(s) && forall i :: 0 <= i < |s.slots| ==> !S.Ready(s, i, now)
    ensures var t := S.Poll(s, now, cap).state;
            && |t.slots| == |s.slots| && t.log == s.log && t.oldest >= s.oldest
            && forall i :: 0 <= i < |s.slots| ==>
                 t.slots[i] == if S.TurnOf(s, s.slots[i], now) == S.Expire then S.Expired(s.slots[i]) else s.slots[i]
  {
    Scheduling.PollSendsIffReady(s, now, cap);
    if s.slots != [] {
      Scheduling.ChosenIsFirst(s, now);
      Scheduling.FailedPollSpends(s, now, cap);
      forall i | 0 <= i < |s.slots|
        ensures S.Poll(s, now, cap).state.slots[i]
                == if S.TurnOf(s, s.slots[i], now) == S.Expire then S.Expired(s.slots[i]) else s.slots[i]
      {
        S.SweptAt(S.Reclaim(s), S.Start(s), |s.slots|, now, i);
        ExpireReclaim(s, i, now);
      }
    }
  }

  lemma ExpireReclaim(s: S.State, i: nat, now: u64)
    requires i < |s.slots|
    ensures S.TurnOf(S.Reclaim(s), s.slots[i], now) == S.Expire <==> S.TurnOf(s, s.slots[i], now) == S.Expire
  {}

  lemma SettledPoll(s: S.State, now: u64, cap: nat)
    requires I.Inv(s) && Settled(s)
    ensures Settled(S.Poll(s, now, cap).state)
  {
    forall i | 0 <= i < |s.slots| ensures !S.Ready(s, i, now) {
      SettledUnready(s, i, now);
    }
    IdlePoll(s, now, cap);
    forall i | 0 <= i < |s.slots| ensures SlotSettled(S.Poll(s, now, cap).state, S.Poll(s, now, cap).state.slots[i]) {
      assert SlotSettled(s, s.slots[i]);
    }
  }

  /** A frame changes nothing of a settled slot but its deadline. */
  lemma SettledRx(s: S.State, now: u64, f: Frame)
    requires I.Inv(s) && Settled(s)
    ensures Settled(S.HandleRx(s, now, f).0)
  {
    var i := S.Addressed(s, f);
    if i < |s.slots| {
      SettledUnready(s, i, now);
      assert SlotSettled(s, s.slots[i]);
      forall j | 0 <= j < |s.slots| ensures SlotSettled(S.HandleRx(s, now, f).0, S.HandleRx(s, now, f).0.slots[j]) {
        assert SlotSettled(s, s.slots[j]);
      }
    }
  }

  lemma SettledStep(s: S.State, e: S.Event)
    requires I.Inv(s) && Settled(s) && Quiet(s, e)
    ensures Settled(S.Step(s, e))
  {
    match e
    case PollEvent(now, cap) => SettledPoll(s, now, cap);
    case RxEvent(now, f) => SettledRx(s, now, f);
    case UnregisterEvent(rid) =>
      forall j | 0 <= j < |S.Step(s, e).slots| ensures SlotSettled(S.Step(s, e), S.Step(s, e).slots[j]) {
        assert SlotSettled(s, s.slots[j]);
      }
    case _ =>
  }

  /** A due poll that sends nothing settles every slot. */
  lemma SilentPollSettles(s: S.State, e: S.Event)
    requires I.Inv(s) && DuePoll(s, e) && !Scheduling.Sends(s, e)
    ensures Settled(S.Step(s, e))
  {
    var now, cap := e.now, e.cap;
    Scheduling.PollSendsIffReady(s, now, cap);
    IdlePoll(s, now, cap);
    var t := S.Poll(s, now, cap).state;
    forall i | 0 <= i < |t.slots| ensures SlotSettled(t, t.slots[i]) {
      assert !S.Ready(s, i, now);
    }
  }

  lemma {:induction false} SettledForever(s: S.State, es: seq<S.Event>)
    requires I.Inv(s) && Settled(s) && Always(S.Step, Quiet, s, es)
    ensures Settled(Run(S.Step, s, es))
    decreases |es|
  {
    if es != [] {
      I.StepInv(s, es[0]);
      SettledStep(s, es[0]);
      SettledForever(S.Step(s, es[0]), es[1..]);
    }
  }

  lemma {:induction false} UnsettledSends(s: S.State, es: seq<S.Event>)
    requires I.Inv(s) && Always(S.Step, Quiet, s, es) && !Settled(Run(S.Step, s, es))
    ensures Count(S.Step, DuePoll, s, es) <= Count(S.Step, Scheduling.Sends, s, es)
    decreases |es|
  {
    if es != [] {
      var t := S.Step(s, es[0]);
      I.StepInv(s, es[0]);
      if DuePoll(s, es[0]) && !Scheduling.Sends(s, es[0]) {
        SilentPollSettles(s, es[0]);
        SettledForever(t, es[1..]);
      } else {
        UnsettledSends(t, es[1..]);
      }
    }
  }

  lemma {:induction false} QuietIsOngoing(s: S.State, es: seq<S.Event>)
    requires I.Inv(s) && Always(S.Step, Quiet, s, es)
    ensures Always(S.Step, Transmissions.Ongoing, s, es) && Run(S.Step, s, es).log == s.log
    decreases |es|
  {
    if es != [] {
      I.StepInv(s, es[0]);
      QuietKeepsLog(s, es[0]);
      QuietIsOngoing(S.Step(s, es[0]), es[1..]);
    }
  }

  lemma QuietKeepsLog(s: S.State, e: S.Event)
    requires Quiet(s, e)
    ensures S.Step(s, e).log == s.log
  {
    if e.PollEvent? {
      Transmissions.PollKeepsLog(s, e.now, e.cap);
    }
  }

  lemma SendsWithin(s: S.State, es: seq<S.Event>)
    requires I.Inv(s) && Always(S.Step, Quiet, s, es)
    ensures Count(S.Step, Scheduling.Sends, s, es) <=
              Transmissions.Left(s, s.Latest(), Count(S.Step, Transmissions.TakesNack, s, es))
  {
    QuietIsOngoing(s, es);
    Transmissions.TransmissionsPaid(s, es);
  }

  /** More due polls than transmissions left settle every slot, in whatever order the rest happens. */
  lemma SettlesAfter(s: S.State, es: seq<S.Event>)
    requires I.Inv(s) && Always(S.Step, Quiet, s, es)
    requires Count(S.Step, DuePoll, s, es) > Transmissions.Left(s, s.Latest(), Count(S.Step, Transmissions.TakesNack, s, es))
    ensures Settled(Run(S.Step, s, es))
  {
    SendsWithin(s, es);
    if !Settled(Run(S.Step, s, es)) {
      UnsettledSends(s, es);
    }
  }

  // ---------- The whole system ----------

  /** What an event does at the sender, if anything. */
  function AtSender(s: System, e: Event): seq<S.Event> {
    if !Enabled(s, e) then []
    else
      match e
      case Local(call) => [call]
      case ToSender(f, now) => [S.RxEvent(now, f)]
      case _ => []
  }

  /** The sender's part of a run. */
  function SenderRun(s: System, es: seq<Event>): seq<S.Event>
    decreases |es|
  {
    if es == [] then [] else AtSender(s, es[0]) + SenderRun(Step(s, es[0]), es[1..])
  }

  /** Loosely disciplined, and nobody joins, is reset, or enqueues. */
  predicate LooseAndQuiet(s: System, e: Event) {
    Loose(s, e) && (e.Local? ==> Quiet(s.sender, e.call))
  }

  lemma {:induction false} SenderRuns(s: System, es: seq<Event>)
    requires Always(Step, LooseAndQuiet, s, es)
    ensures Always(S.Step, Quiet, s.sender, SenderRun(s, es))
    ensures Run(S.Step, s.sender, SenderRun(s, es)) == Run(Step, s, es).sender
    decreases |es|
  {
    if es != [] {
      var t, first, rest := Step(s, es[0]), AtSender(s, es[0]), SenderRun(Step(s, es[0]), es[1..]);
      SenderSteps(s, es[0]);
      SenderRuns(t, es[1..]);
      if first == [] {
        assert first + rest == rest;
      } else {
        assert first == [first[0]];
        FirstCall(s.sender, t.sender, first[0], rest);
      }
    }
  }

  lemma FirstCall(s: S.State, t: S.State, c: S.Event, rest: seq<S.Event>)
    requires Quiet(s, c) && t == S.Step(s, c) && Always(S.Step, Quiet, t, rest)
    ensures Always(S.Step, Quiet, s, [c] + rest) && Run(S.Step, s, [c] + rest) == Run(S.Step, t, rest)
  {
    assert ([c] + rest)[1..] == rest;
  }

  lemma SenderSteps(s: System, e: Event)
    requires LooseAndQuiet(s, e)
    ensures var calls := AtSender(s, e);
            || (calls == [] && Step(s, e).sender == s.sender)
            || (|calls| == 1 && Quiet(s.sender, calls[0]) && Step(s, e).sender == S.Step(s.sender, calls[0]))
  {}

  /**
   From any state that loose discipline leads to, in any run that keeps it and
   has more due polls than transmissions may still be needed: a receiver that
   is still registered was given up or holds the fold of the whole log, however
   frames were lost, repeated or reordered and callbacks failed.
   */
  lemma DeliveredOrGivenUp(s: System, es: seq<Event>, i: nat)
    requires Tracks(s, false) && Always(Step, LooseAndQuiet, s, es)
    requires var calls := SenderRun(s, es);
             Count(S.Step, DuePoll, s.sender, calls)
             > Transmissions.Left(s.sender, s.sender.Latest(), Count(S.Step, Transmissions.TakesNack, s.sender, calls))
    ensures var t := Run(Step, s, es);
            i < |t.sender.slots| && !t.sender.slots[i].exhausted
            && t.sender.slots[i].active && t.sender.slots[i].rid in t.nodes ==>
              var node := t.nodes[t.sender.slots[i].rid];
              node.r.last == |t.sender.log| && node.numbers == Fold({}, t.sender.log)
  {
    var t := Run(Step, s, es);
    SenderRuns(s, es);
    SettlesAfter(s.sender, SenderRun(s, es));
    RunTracks(s, es, LooseAndQuiet, false);
    if i < |t.sender.slots| {
      SettledHasAll(t, i);
    }
  }

  lemma SettledHasAll(t: System, i: nat)
    requires Tracks(t, false) && Settled(t.sender) && i < |t.sender.slots|
    ensures var slot := t.sender.slots[i];
            slot.active && slot.rid in t.nodes && !slot.exhausted ==>
              t.nodes[slot.rid].r.last == |t.sender.log| && t.nodes[slot.rid].numbers == Fold({}, t.sender.log)
  {
    var slot := t.sender.slots[i];
    assert SlotSettled(t.sender, slot) && SlotTracks(t, slot, false);
    if slot.active && slot.rid in t.nodes && !slot.exhausted {
      assert NodeOk(t.sender.log, t.nodes[slot.rid]);
      CaughtUp(t, slot.rid);
      assert t.sender.log[..|t.sender.log|] == t.sender.log;
    }
  }
}
