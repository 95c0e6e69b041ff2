/**
 One batch over a link that loses batches and answers, with an engine that may
 fail: what the sender reports once an answer gets through within its retries.
 */
module LegacyRetries {
  import opened Words
  import opened Crc
  import opened Framing
  import opened Operations
  import opened Runs
  import opened UpdateFrames
  import opened Batches
  import opened LegacyModel
  import opened LegacyChain
  import opened LegacyRepeats
  import opened LegacyExchange
  import LegacyLeak

  /** A transmission is lost, or it arrives and the engine fares so, and the answer arrives or not. */
  datatype Fate = Lost | Arrives(outcome: Outcome, answered: bool)

  /** One transmission of batch `m`. */
  function Transmitted(s: System, m: Message, cap: nat, fate: Fate): System
    requires m.content.Batch? && LegalMessage(m)
  {
    match fate
    case Lost => s
    case Arrives(outcome, answered) =>
      var t := Step(s, BatchIn(m, cap, outcome));
      match HandleBatch(s.receiver, m, cap, outcome.Completes?).out
      case None => t
      case Some(a) => if answered then Step(t, AnswerIn(a)) else t
  }

  /** The batch, and again on every timeout. */
  function Repeated(s: System, m: Message, cap: nat, fates: seq<Fate>): System
    requires m.content.Batch? && LegalMessage(m)
    decreases |fates|
  {
    if fates == [] then s
    else
      var t := Transmitted(s, m, cap, fates[0]);
      match OnAckTimeout(t.sender, cap).out
      case None => t
      case Some(again) =>
        if |fates| == 1 then t
        else
          TimeoutRepeats(t.sender, cap);
          Repeated(Step(t, AckTimeout(cap)), again, cap, fates[1..])
  }

  lemma TimeoutRepeats(a: Sender, cap: nat)
    ensures var out := OnAckTimeout(a, cap).out; out.Some? ==> LegalMessage(out.value) && out.value.content.Batch?
  {}

  /** No answer but the last gets through. */
  predicate LastAnswered(fates: seq<Fate>) {
    && fates != [] && fates[|fates| - 1].Arrives? && fates[|fates| - 1].answered
    && forall i :: 0 <= i < |fates| - 1 ==> fates[i].Arrives? ==> !fates[i].answered
  }

  /** The engine completes the batch. */
  predicate Reached(fate: Fate) {
    fate.Arrives? && fate.outcome.Completes?
  }

  predicate Completed(fates: seq<Fate>) {
    exists i :: 0 <= i < |fates| && Reached(fates[i])
  }

  // ---------- One transmission ----------

  /** The sender awaits the ACK of `u`, and its batch `m` is under way to the receiver. */
  predicate Flying(s: System, u: Update, m: Message) {
    && Paired(s.sender, s.receiver) && s.sender.phase == WaitAck && s.sender.update == u && s.sender.target == s.receiver.id
    && m in s.net && LegalMessage(m) && m.content == Batch(u)
    && m.header == Header(s.sender.id, s.receiver.id, m.header.seqNo)
    && ValidBatch(u.removes, u.adds)
  }

  /** The receiver waits for `u` as it was announced. */
  predicate Open(r: Receiver, u: Update) {
    u.id != r.last.id && AgainstOffer(r, u) == ERR_NONE && r.pending.crc == CrcOf(UpdatePayload(u))
  }

  /** The receiver has applied `u` last. */
  predicate Taken(r: Receiver, id: u16, u: Update) {
    MemoryFits(r, id, u) && r.version == u.to
  }

  lemma OpenReaction(s: System, u: Update, m: Message, cap: nat, works: bool)
    requires Flying(s, u, m) && Open(s.receiver, u) && cap >= 18
    ensures var e := HandleBatch(s.receiver, m, cap, works);
            && e.tried && e.out.Some? && e.out.value.header.receiver == s.sender.id
            && if works
               then e.out.value.content == Done(u.id, u.to) && Taken(e.state, s.sender.id, u) && e.state.id == s.receiver.id
               else e.out.value.content.Refused? && e.state == s.receiver.(seqNo := e.state.seqNo)
  {
    AcceptsExactly(u.removes, u.adds);
    BatchReaction(s.receiver, m, cap, works);
  }

  lemma TakenReaction(s: System, u: Update, m: Message, cap: nat, works: bool)
    requires Flying(s, u, m) && Taken(s.receiver, s.sender.id, u) && cap >= 18
    ensures var e := HandleBatch(s.receiver, m, cap, works);
            && !e.tried && e.state == s.receiver.(seqNo := e.state.seqNo)
            && e.out.Some? && e.out.value.header.receiver == s.sender.id && e.out.value.content == Done(u.id, u.to)
  {
    AcceptsExactly(u.removes, u.adds);
    assert Repeats(s.receiver, m.header, u);
    AcknowledgedAgain(s.receiver, m, cap, works);
    BatchReaction(s.receiver, m, cap, works);
  }

  /** The sender takes an answer. */
  lemma AnswerEnds(s: System, u: Update, a: Message)
    requires Paired(s.sender, s.receiver) && s.sender.phase == WaitAck && s.sender.update == u
    requires a in s.net && a.header.receiver == s.sender.id && (a.content == Done(u.id, u.to) || a.content.Refused?)
    ensures var t := Step(s, AnswerIn(a));
            && t == s.(sender := t.sender, confirmed := t.confirmed) && t.sender.phase == Idle
            && t.confirmed == if a.content.Done? then s.confirmed + {u} else s.confirmed
  {}

  /** The state a batch leaves that was not answered. */
  function Left(s: System, u: Update, r: Reaction, outcome: Outcome): System {
    var t := s.(receiver := r.state, net := Put(s.net, r.out));
    if r.tried then Attempt(t, u, outcome) else t
  }

  lemma BatchLeaves(s: System, u: Update, m: Message, cap: nat, outcome: Outcome, r: Reaction)
    requires Flying(s, u, m) && r == HandleBatch(s.receiver, m, cap, outcome.Completes?)
    ensures Step(s, BatchIn(m, cap, outcome)) == Left(s, u, r, outcome)
  {}

  /** The set interrupted attempts at `u` may have left of `base`. */
  ghost predicate Tried(base: set<u32>, u: Update, numbers: set<u32>) {
    exists stops :: numbers == Attempts(base, u, stops)
  }

  lemma NotTried(base: set<u32>, u: Update)
    ensures Tried(base, u, base)
  {
    var stops: seq<nat> := [];
    assert base == Attempts(base, u, stops);
  }

  lemma TriedAttempt(s: System, base: set<u32>, u: Update, outcome: Outcome)
    requires Tried(base, u, s.numbers)
    ensures var t := Attempt(s, u, outcome);
            if outcome.Completes? then t.numbers == Fold(base, Calls(u)) else Tried(base, u, t.numbers)
  {
    var stops :| s.numbers == Attempts(base, u, stops);
    match outcome
    case Completes => RetriesComplete(base, u, stops);
    case Stops(after) =>
      assert (stops + [after])[..|stops|] == stops;
      assert Attempt(s, u, outcome).numbers == Attempts(base, u, stops + [after]);
  }

  /** The batch of `u` is under way, not applied yet or applied. */
  ghost predicate Going(s: System, base: set<u32>, u: Update, m: Message, applied: bool) {
    && Flying(s, u, m)
    && if applied then Taken(s.receiver, s.sender.id, u) && s.numbers == Fold(base, Calls(u))
       else Open(s.receiver, u) && Tried(base, u, s.numbers)
  }

  function DoneAfter(s: System, u: Update, before: bool, after: bool): seq<Update> {
    if after && !before then s.done + [u] else s.done
  }

  /** A transmission that arrives: what it leaves, its answer still under way. */
  lemma BatchArrives(s: System, base: set<u32>, u: Update, m: Message, cap: nat, outcome: Outcome, applied: bool)
    returns (t: System, a: Message)
    requires Going(s, base, u, m, applied) && cap >= 18
    ensures t == Step(s, BatchIn(m, cap, outcome)) && HandleBatch(s.receiver, m, cap, outcome.Completes?).out == Some(a)
    ensures Going(t, base, u, m, applied || outcome.Completes?) && t.sender == s.sender && t.confirmed == s.confirmed
    ensures t.done == DoneAfter(s, u, applied, applied || outcome.Completes?)
    ensures a in t.net && a.header.receiver == s.sender.id
    ensures if applied || outcome.Completes? then a.content == Done(u.id, u.to) else a.content.Refused?
  {
    var r := HandleBatch(s.receiver, m, cap, outcome.Completes?);
    BatchLeaves(s, u, m, cap, outcome, r);
    t := Left(s, u, r, outcome);
    if applied {
      TakenReaction(s, u, m, cap, outcome.Completes?);
    } else {
      OpenReaction(s, u, m, cap, outcome.Completes?);
      TriedAttempt(s.(receiver := r.state, net := Put(s.net, r.out)), base, u, outcome);
      if !outcome.Completes? {
        StaysOpen(s.receiver, r.state, u);
      }
    }
    a := r.out.value;
  }

  lemma StaysOpen(r: Receiver, q: Receiver, u: Update)
    requires Open(r, u) && q == r.(seqNo := q.seqNo)
    ensures Open(q, u)
  {}

  // ---------- The whole exchange ----------

  /** A transmission whose answer, if any, is lost. */
  lemma Unanswered(s: System, base: set<u32>, u: Update, m: Message, cap: nat, fate: Fate, applied: bool)
    requires Going(s, base, u, m, applied) && cap >= 18 && (fate.Arrives? ==> !fate.answered)
    ensures var t, after := Transmitted(s, m, cap, fate), applied || Reached(fate);
            && Going(t, base, u, m, after) && t.sender == s.sender && t.confirmed == s.confirmed
            && t.done == DoneAfter(s, u, applied, after)
  {
    if fate.Arrives? {
      var t, a := BatchArrives(s, base, u, m, cap, fate.outcome, applied);
    }
  }

  lemma Answered(s: System, base: set<u32>, u: Update, m: Message, cap: nat, fate: Fate, applied: bool)
    requires Going(s, base, u, m, applied) && cap >= 18 && fate.Arrives? && fate.answered
    ensures var t, after := Transmitted(s, m, cap, fate), applied || Reached(fate);
            && t.sender.phase == Idle && t.confirmed == (if after then s.confirmed + {u} else s.confirmed)
            && t.done == DoneAfter(s, u, applied, after) && (after ==> t.numbers == Fold(base, Calls(u)))
  {
    var t, a := BatchArrives(s, base, u, m, cap, fate.outcome, applied);
    AnswerEnds(t, u, a);
  }

  lemma Again(s: System, base: set<u32>, u: Update, m: Message, cap: nat, applied: bool) returns (t: System, again: Message)
    requires Going(s, base, u, m, applied) && s.sender.retries < s.sender.maxRetries && cap >= UpdateLength(u)
    ensures OnAckTimeout(s.sender, cap).out == Some(again) && t == Step(s, AckTimeout(cap))
    ensures Going(t, base, u, again, applied) && t.done == s.done && t.confirmed == s.confirmed
    ensures t.sender.retries as int == s.sender.retries + 1 && t.sender.maxRetries == s.sender.maxRetries
  {
    again := OnAckTimeout(s.sender, cap).out.value;
    t := Step(s, AckTimeout(cap));
  }

  lemma FirstFate(fates: seq<Fate>)
    requires LastAnswered(fates)
    ensures Completed(fates) <==> Reached(fates[0]) || Completed(fates[1..])
    ensures |fates| > 1 ==> LastAnswered(fates[1..]) && (fates[0].Arrives? ==> !fates[0].answered)
  {
    if Completed(fates) {
      var i :| 0 <= i < |fates| && Reached(fates[i]);
      assert i > 0 ==> fates[1..][i - 1] == fates[i];
    }
    if Completed(fates[1..]) {
      var i :| 0 <= i < |fates| - 1 && Reached(fates[1..][i]);
      assert fates[i + 1] == fates[1..][i];
    }
  }

  /** What the exchange of `u` comes to. */
  predicate Concluded(s: System, t: System, base: set<u32>, u: Update, before: bool, after: bool) {
    && t.sender.phase == Idle && t.confirmed == (if after then s.confirmed + {u} else s.confirmed)
    && t.done == DoneAfter(s, u, before, after) && (after ==> t.numbers == Fold(base, Calls(u)))
  }

  lemma RepeatedOnce(s: System, m: Message, cap: nat, fate: Fate)
    requires m.content.Batch? && LegalMessage(m)
    ensures Repeated(s, m, cap, [fate]) == Transmitted(s, m, cap, fate)
  {}

  lemma RepeatedNext(s: System, m: Message, cap: nat, fates: seq<Fate>, again: Message)
    requires m.content.Batch? && LegalMessage(m) && again.content.Batch? && LegalMessage(again) && |fates| > 1
    requires OnAckTimeout(Transmitted(s, m, cap, fates[0]).sender, cap).out == Some(again)
    ensures Repeated(s, m, cap, fates)
            == Repeated(Step(Transmitted(s, m, cap, fates[0]), AckTimeout(cap)), again, cap, fates[1..])
  {}

  lemma {:induction false} FatesConclude(
    s: System, base: set<u32>, u: Update, m: Message, cap: nat, fates: seq<Fate>, applied: bool)
    requires Going(s, base, u, m, applied) && cap >= UpdateLength(u) && LastAnswered(fates)
    requires |fates| <= s.sender.maxRetries as int - s.sender.retries + 1
    ensures Concluded(s, Repeated(s, m, cap, fates), base, u, applied, applied || Completed(fates))
    decreases |fates|
  {
    FirstFate(fates);
    if |fates| == 1 {
      assert fates == [fates[0]];
      Answered(s, base, u, m, cap, fates[0], applied);
      RepeatedOnce(s, m, cap, fates[0]);
    } else {
      Unanswered(s, base, u, m, cap, fates[0], applied);
      var t, done := Transmitted(s, m, cap, fates[0]), applied || Reached(fates[0]);
      var v, again := Again(t, base, u, m, cap, done);
      RepeatedNext(s, m, cap, fates, again);
      FatesConclude(v, base, u, again, cap, fates[1..], done);
    }
  }

  /**
   If some transmission within `max_retries + 1` is answered and the answer gets
   through, the sender reports the update as applied exactly if the engine
   completed it in that transmission or in one whose answer was lost. It was
   then applied once, and the set is what completing it at once would have
   given, however often it was interrupted; otherwise it was not applied.
   */
  lemma AnswerWithinRetries(s: System, u: Update, m: Message, cap: nat, fates: seq<Fate>)
    requires Flying(s, u, m) && Open(s.receiver, u) && cap >= UpdateLength(u) && LastAnswered(fates)
    requires |fates| <= s.sender.maxRetries as int - s.sender.retries + 1 && u !in s.confirmed
    ensures var t := Repeated(s, m, cap, fates);
            && t.sender.phase == Idle
            && (u in t.confirmed <==> Completed(fates))
            && t.done == (if Completed(fates) then s.done + [u] else s.done)
            && (Completed(fates) ==> t.numbers == Fold(s.numbers, Calls(u)))
  {
    NotTried(s.numbers, u);
    FatesConclude(s, s.numbers, u, m, cap, fates, false);
  }

  /** A delivered beacon and request put the sender and receiver there. */
  lemma SentIsFlying(s: System, u: Update, cap: nat) returns (t: System, m: Message)
    requires LegacyLeak.ReadyFor(s, u, cap)
    ensures Reaches(Step, LegacyLeak.Anything, s, t) && Flying(t, u, m) && Open(t.receiver, u) && t.sender.retries == 0
    ensures t.done == s.done && t.confirmed == s.confirmed && t.numbers == s.numbers
  {
    ReachesSelf(Step, LegacyLeak.Anything, s);
    var q;
    t, m, q := LegacyLeak.BatchSent(s, s, u, cap);
    assert LegacyLeak.HoldsChecksum(t.receiver, u);
  }
}
