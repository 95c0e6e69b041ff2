/** One batch sender, one receiver, and a link that loses, delays, reorders and repeats messages. */
module LegacyChain {
  import opened Words
  import opened Operations
  import opened Runs
  import opened UpdateFrames
  import opened Batches
  import opened LegacyModel

  /**
   `given` holds every update set_update accepted, `done` the batches the
   engine completed in order, `confirmed` the updates the sender reported
   as applied, `numbers` the engine's set, and `partial` the batch whose
   incomplete attempt touched that set last.
   */
  datatype System = System(
    sender: Sender, receiver: Receiver, net: set<Message>, given: set<Update>, done: seq<Update>, confirmed: set<Update>,
    numbers: set<u32>, partial: Option<Update>)

  /** How the engine fares with a batch: it completes it, or stops after some of its calls. */
  datatype Outcome = Completes | Stops(after: nat)

  datatype Event =
    | Give(target: u16, u: Update)
    | Announce(cap: nat)
    | RequestIn(m: Message, cap: nat)
    | AnswerIn(m: Message)
    | AckTimeout(cap: nat)
    | BeaconIn(m: Message, cap: nat)
    | UpdateTimeout(cap: nat)
    | BatchIn(m: Message, cap: nat, outcome: Outcome)
    | GarbledIn(to: u16, error: u16, cap: nat)

  function Put(net: set<Message>, m: Option<Message>): set<Message> {
    match m case None => net case Some(x) => net + {x}
  }

  /** Update ids are never reused; only messages that were sent arrive. */
  predicate Enabled(s: System, e: Event) {
    match e
    case Give(_, u) => forall g :: g in s.given ==> g.id != u.id
    case RequestIn(m, _) => m in s.net && LegalMessage(m)
    case AnswerIn(m) => m in s.net
    case BeaconIn(m, _) => m in s.net
    case BatchIn(m, _, _) => m in s.net && LegalMessage(m) && m.content.Batch?
    case _ => true
  }

  function Step(s: System, e: Event): System {
    if !Enabled(s, e) then s
    else
      match e
      case Give(target, u) =>
        var (sender, error) := SetUpdate(s.sender, target, u);
        s.(sender := sender, given := if error == ERR_NONE then s.given + {u} else s.given)
      case Announce(cap) =>
        var r := BuildBeacon(s.sender, cap);
        s.(sender := r.state, net := Put(s.net, r.out))
      case RequestIn(m, cap) =>
        var r := HandleRequest(s.sender, m, cap);
        s.(sender := r.state, net := Put(s.net, r.out))
      case AnswerIn(m) =>
        var (sender, verdict) := HandleAnswer(s.sender, m);
        s.(sender := sender, confirmed := if verdict == Applied then s.confirmed + {s.sender.update} else s.confirmed)
      case AckTimeout(cap) =>
        var r := OnAckTimeout(s.sender, cap);
        s.(sender := r.state, net := Put(s.net, r.out))
      case BeaconIn(m, cap) =>
        var r := HandleBeacon(s.receiver, m, cap);
        s.(receiver := r.state, net := Put(s.net, r.out))
      case UpdateTimeout(cap) =>
        var r := OnUpdateTimeout(s.receiver, cap);
        s.(receiver := r.state, net := Put(s.net, r.out))
      case GarbledIn(to, error, cap) =>
        var r := RefuseGarbled(s.receiver, to, error, cap);
        s.(receiver := r.state, net := Put(s.net, r.out))
      case BatchIn(m, cap, outcome) =>
        var r := HandleBatch(s.receiver, m, cap, outcome.Completes?);
        var tried := s.(receiver := r.state, net := Put(s.net, r.out));
        if !r.tried then tried else Attempt(tried, m.content.u, outcome)
  }

  /** The engine's part of a batch it is handed. */
  function Attempt(s: System, u: Update, outcome: Outcome): System {
    match outcome
    case Completes => s.(done := s.done + [u], numbers := Fold(s.numbers, Calls(u)), partial := None)
    case Stops(after) =>
      s.(numbers := Fold(s.numbers, Calls(u)[..if after <= |Calls(u)| then after else |Calls(u)|]), partial := Some(u))
  }

  /** Each batch starts at the version the one before it reached. */
  predicate Linked(base: u32, done: seq<Update>) {
    forall k :: 0 <= k < |done| ==> done[k].to > done[k].from == VersionAfter(base, done[..k])
  }

  function VersionAfter(base: u32, done: seq<Update>): u32 {
    if done == [] then base else done[|done| - 1].to
  }

  predicate IdsUnique(given: set<Update>) {
    forall g, h :: g in given && h in given && g.id == h.id ==> g == h
  }

  predicate Acked(done: seq<Update>, id: u32, version: u32) {
    exists k :: 0 <= k < |done| && done[k].id == id && done[k].to == version
  }

  predicate MessageOk(s: System, m: Message) {
    LegalMessage(m) &&
    match m.content
    case Batch(u) => u in s.given
    case Done(id, version) => Acked(s.done, id, version)
    case _ => true
  }

  /** The receiver remembers the batch it applied last, once it has applied one. */
  predicate RemembersLast(r: Receiver, done: seq<Update>) {
    r.last.sender != 0 ==> done != [] && r.last.id == done[|done| - 1].id && r.version == done[|done| - 1].to
  }

  ghost predicate Chained(s: System, base: u32) {
    && IdsUnique(s.given)
    && (s.sender.update.id != 0 ==> s.sender.update in s.given)
    && (forall m :: m in s.net ==> MessageOk(s, m))
    && Linked(base, s.done)
    && s.receiver.version == VersionAfter(base, s.done)
    && RemembersLast(s.receiver, s.done)
    && (forall u :: u in s.given ==> ValidBatch(u.removes, u.adds))
    && (forall u :: u in s.done ==> u in s.given)
    && (forall u :: u in s.confirmed ==> u in s.done)
  }

  /** Nothing given, sent or done yet. */
  predicate Fresh(s: System) {
    && s.sender == SenderInit(s.sender.id, s.sender.maxRetries)
    && s.receiver.last.sender == 0
    && s.net == {} && s.given == {} && s.done == [] && s.confirmed == {} && s.partial == None
  }

  /** The sender's messages carry no acknowledgement, and no batch but the current one. */
  predicate SpeaksForItself(a: Sender, r: Sending) {
    && r.state.update == a.update
    && (r.out.Some? ==> LegalMessage(r.out.value) && !r.out.value.content.Done?)
    && (r.out.Some? && r.out.value.content.Batch? ==> r.out.value.content.u == a.update)
  }

  lemma SenderMessages(a: Sender, cap: nat)
    ensures SpeaksForItself(a, BuildBeacon(a, cap)) && SpeaksForItself(a, OnAckTimeout(a, cap))
  {}

  lemma RequestMessages(a: Sender, m: Message, cap: nat)
    requires LegalMessage(m)
    ensures SpeaksForItself(a, HandleRequest(a, m, cap))
  {}

  /** Apart from completing a batch, the receiver acknowledges only what it remembers as applied. */
  predicate SpeaksOfThePast(a: Receiver, r: Reaction) {
    && r.state.version == a.version && r.state.last == a.last
    && (r.out.Some? ==> LegalMessage(r.out.value) && !r.out.value.content.Batch?)
    && (r.out.Some? && r.out.value.content.Done? ==>
          a.last.sender != 0 && r.out.value.content == Done(a.last.id, a.version))
  }

  lemma BeaconMessages(a: Receiver, m: Message, cap: nat)
    ensures SpeaksOfThePast(a, HandleBeacon(a, m, cap))
  {}

  lemma GarbledMessages(a: Receiver, to: u16, error: u16, cap: nat)
    ensures SpeaksOfThePast(a, RefuseGarbled(a, to, error, cap))
  {}

  lemma TimeoutMessages(a: Receiver, cap: nat)
    ensures SpeaksOfThePast(a, OnUpdateTimeout(a, cap))
  {}

  lemma OldBatchMessages(a: Receiver, m: Message, cap: nat, works: bool)
    requires m.content.Batch? && LegalMessage(m)
    ensures var r := HandleBatch(a, m, cap, works); !(r.tried && works) ==> SpeaksOfThePast(a, r)
  {}

  lemma SenderStep(s: System, base: u32, r: Sending)
    requires Chained(s, base) && SpeaksForItself(s.sender, r)
    ensures Chained(s.(sender := r.state, net := Put(s.net, r.out)), base)
  {
    var t := s.(sender := r.state, net := Put(s.net, r.out));
    forall m | m in t.net ensures MessageOk(t, m) {
      assert m in s.net ==> MessageOk(s, m);
    }
  }

  lemma ReceiverStep(s: System, base: u32, r: Reaction)
    requires Chained(s, base) && SpeaksOfThePast(s.receiver, r)
    ensures Chained(s.(receiver := r.state, net := Put(s.net, r.out)), base)
  {
    var t := s.(receiver := r.state, net := Put(s.net, r.out));
    forall m | m in t.net ensures MessageOk(t, m) {
      assert m in s.net ==> MessageOk(s, m);
      if m !in s.net && m.content.Done? {
        assert s.done[|s.done| - 1].id == m.content.id;
      }
    }
  }

  lemma GiveEffect(a: Sender, target: u16, u: Update)
    ensures var (b, error) := SetUpdate(a, target, u);
            if error == ERR_NONE then b.update == u && ValidBatch(u.removes, u.adds) else b == a
  {
    AcceptsExactly(u.removes, u.adds);
  }

  lemma GiveStep(s: System, base: u32, target: u16, u: Update)
    requires Chained(s, base) && Enabled(s, Give(target, u))
    ensures Chained(Step(s, Give(target, u)), base)
  {
    var (b, error) := SetUpdate(s.sender, target, u);
    GiveEffect(s.sender, target, u);
    var t := s.(sender := b, given := if error == ERR_NONE then s.given + {u} else s.given);
    assert t == Step(s, Give(target, u));
    forall m | m in t.net ensures MessageOk(t, m) {
      assert MessageOk(s, m);
    }
  }

  /** The sender reports an update as applied only after the receiver applied it. */
  lemma AnswerStep(s: System, base: u32, m: Message)
    requires Chained(s, base) && m in s.net
    ensures Chained(Step(s, AnswerIn(m)), base)
  {
    var t := Step(s, AnswerIn(m));
    assert MessageOk(s, m);
    if HandleAnswer(s.sender, m).1 == Applied {
      var k :| 0 <= k < |s.done| && s.done[k].id == m.content.id && s.done[k].to == m.content.version;
      assert s.done[k] in s.done && s.done[k] in s.given;
      assert s.sender.update == s.done[k];
    }
    forall x | x in t.net ensures MessageOk(t, x) {
      assert MessageOk(s, x);
    }
  }

  lemma LinkedAppend(base: u32, done: seq<Update>, u: Update)
    requires Linked(base, done) && u.to > u.from == VersionAfter(base, done)
    ensures Linked(base, done + [u])
  {
    var longer := done + [u];
    forall k | 0 <= k < |longer| ensures longer[k].to > longer[k].from == VersionAfter(base, longer[..k]) {
      if k < |done| {
        assert longer[..k] == done[..k];
      } else {
        assert longer[..k] == done;
      }
    }
  }

  lemma AckedAppend(done: seq<Update>, u: Update, id: u32, version: u32)
    requires Acked(done, id, version)
    ensures Acked(done + [u], id, version)
  {
    var k :| 0 <= k < |done| && done[k].id == id && done[k].to == version;
    assert (done + [u])[k] == done[k];
  }

  /** A batch the engine completes is acknowledged, remembered, and continues the chain. */
  lemma NewBatch(r: Receiver, m: Message, cap: nat)
    requires m.content.Batch? && LegalMessage(m) && HandleBatch(r, m, cap, true).tried
    ensures var e, u := HandleBatch(r, m, cap, true), m.content.u;
            && u.from == r.version && u.to > u.from
            && e.state.version == u.to && e.state.last.id == u.id
            && e.out.Some? && LegalMessage(e.out.value) && e.out.value.content == Done(u.id, u.to)
  {}

  lemma NewBatchStep(s: System, base: u32, m: Message, cap: nat)
    requires Chained(s, base) && m in s.net && LegalMessage(m) && m.content.Batch?
    requires HandleBatch(s.receiver, m, cap, true).tried
    ensures var r := HandleBatch(s.receiver, m, cap, true);
            Chained(s.(receiver := r.state, net := Put(s.net, r.out), done := s.done + [m.content.u]), base)
  {
    var r, u := HandleBatch(s.receiver, m, cap, true), m.content.u;
    var t := s.(receiver := r.state, net := Put(s.net, r.out), done := s.done + [u]);
    assert MessageOk(s, m);
    NewBatch(s.receiver, m, cap);
    LinkedAppend(base, s.done, u);
    assert t.done[|s.done|] == u;
    forall x | x in t.net ensures MessageOk(t, x) {
      if x in s.net {
        assert MessageOk(s, x);
        if x.content.Done? {
          AckedAppend(s.done, u, x.content.id, x.content.version);
        }
      }
    }
  }

  lemma BatchStep(s: System, base: u32, m: Message, cap: nat, outcome: Outcome)
    requires Chained(s, base) && Enabled(s, BatchIn(m, cap, outcome))
    ensures Chained(Step(s, BatchIn(m, cap, outcome)), base)
  {
    var r := HandleBatch(s.receiver, m, cap, outcome.Completes?);
    if r.tried && outcome.Completes? {
      NewBatchStep(s, base, m, cap);
      SameChain(s.(receiver := r.state, net := Put(s.net, r.out), done := s.done + [m.content.u]),
                Step(s, BatchIn(m, cap, outcome)), base);
    } else {
      OldBatchMessages(s.receiver, m, cap, outcome.Completes?);
      ReceiverStep(s, base, r);
      SameChain(s.(receiver := r.state, net := Put(s.net, r.out)), Step(s, BatchIn(m, cap, outcome)), base);
    }
  }

  /** The chain does not depend on the engine's set. */
  lemma SameChain(s: System, t: System, base: u32)
    requires Chained(s, base) && t == s.(numbers := t.numbers, partial := t.partial)
    ensures Chained(t, base)
  {
    forall m | m in t.net ensures MessageOk(t, m) {
      assert MessageOk(s, m);
    }
  }

  lemma SenderEventStep(s: System, base: u32, e: Event)
    requires Chained(s, base) && Enabled(s, e) && (e.Announce? || e.RequestIn? || e.AckTimeout?)
    ensures Chained(Step(s, e), base)
  {
    match e
    case Announce(cap) =>
      SenderMessages(s.sender, cap);
      SenderStep(s, base, BuildBeacon(s.sender, cap));
    case RequestIn(m, cap) =>
      RequestMessages(s.sender, m, cap);
      SenderStep(s, base, HandleRequest(s.sender, m, cap));
    case AckTimeout(cap) =>
      SenderMessages(s.sender, cap);
      SenderStep(s, base, OnAckTimeout(s.sender, cap));
  }

  lemma ReceiverEventStep(s: System, base: u32, e: Event)
    requires Chained(s, base) && Enabled(s, e) && (e.BeaconIn? || e.UpdateTimeout? || e.GarbledIn?)
    ensures Chained(Step(s, e), base)
  {
    match e
    case BeaconIn(m, cap) =>
      BeaconMessages(s.receiver, m, cap);
      ReceiverStep(s, base, HandleBeacon(s.receiver, m, cap));
    case UpdateTimeout(cap) =>
      TimeoutMessages(s.receiver, cap);
      ReceiverStep(s, base, OnUpdateTimeout(s.receiver, cap));
    case GarbledIn(to, error, cap) =>
      GarbledMessages(s.receiver, to, error, cap);
      ReceiverStep(s, base, RefuseGarbled(s.receiver, to, error, cap));
  }

  lemma ChainStep(s: System, base: u32, e: Event)
    requires Chained(s, base)
    ensures Chained(Step(s, e), base)
  {
    if Enabled(s, e) {
      match e
      case Give(target, u) => GiveStep(s, base, target, u);
      case AnswerIn(m) => AnswerStep(s, base, m);
      case BatchIn(m, cap, outcome) => BatchStep(s, base, m, cap, outcome);
      case BeaconIn(_, _) => ReceiverEventStep(s, base, e);
      case UpdateTimeout(_) => ReceiverEventStep(s, base, e);
      case GarbledIn(_, _, _) => ReceiverEventStep(s, base, e);
      case _ => SenderEventStep(s, base, e);
    }
  }

  /** Versions along the chain strictly grow, so no batch occurs in it twice. */
  lemma {:induction false} ChainGrows(base: u32, done: seq<Update>, i: nat, j: nat)
    requires Linked(base, done) && i < j < |done|
    ensures done[i].to <= done[j].from < done[j].to && done[i] != done[j]
    decreases j
  {
    assert done[j].to > done[j].from == VersionAfter(base, done[..j]) == done[j - 1].to;
    if i < j - 1 {
      ChainGrows(base, done, i, j - 1);
    }
    assert done[i].to > done[i].from;
  }

  /**
   The version chain, in every reachable state: each batch the receiver
   applied was given to the sender, starts at the version the one before it
   reached, none is applied twice, the receiver's version is where the chain
   ends, and every update the sender reported as applied is in the chain.
   */
  lemma VersionChain(s: System, es: seq<Event>)
    requires Fresh(s)
    ensures var t := Run(Step, s, es);
            && (forall k :: 0 <= k < |t.done| ==>
                  t.done[k] in t.given && ValidBatch(t.done[k].removes, t.done[k].adds) &&
                  t.done[k].to > t.done[k].from == VersionAfter(s.receiver.version, t.done[..k]))
            && (forall i, j :: 0 <= i < j < |t.done| ==> t.done[i] != t.done[j])
            && t.receiver.version == VersionAfter(s.receiver.version, t.done)
            && (forall u :: u in t.confirmed ==> u in t.done)
  {
    var base := s.receiver.version;
    var chained := s => Chained(s, base);
    var any := (s: System, e: Event) => true;
    forall s, e | Chained(s, base) ensures Chained(Step(s, e), base) {
      ChainStep(s, base, e);
    }
    AlwaysTrue(Step, any, s, es);
    RunPreserves(Step, chained, any, s, es);
    ChainFacts(Run(Step, s, es), base);
  }

  lemma ChainFacts(t: System, base: u32)
    requires Chained(t, base)
    ensures forall k :: 0 <= k < |t.done| ==>
              t.done[k] in t.given && ValidBatch(t.done[k].removes, t.done[k].adds) &&
              t.done[k].to > t.done[k].from == VersionAfter(base, t.done[..k])
    ensures forall i, j :: 0 <= i < j < |t.done| ==> t.done[i] != t.done[j]
  {
    forall k | 0 <= k < |t.done| ensures t.done[k] in t.given {
      assert t.done[k] in t.done;
    }
    forall i, j | 0 <= i < j < |t.done| ensures t.done[i] != t.done[j] {
      ChainGrows(base, t.done, i, j);
    }
  }

  // ---------- The engine's set ----------

  /** The set after all of `done` were applied in order. */
  function FoldBatches(numbers: set<u32>, done: seq<Update>): set<u32> {
    if done == [] then numbers else Fold(FoldBatches(numbers, done[..|done| - 1]), Calls(done[|done| - 1]))
  }

  /** A batch that was cut short is tried again before any other is. */
  predicate Persistent(s: System, e: Event) {
    (e.BatchIn? && Enabled(s, e) && s.partial.Some? && HandleBatch(s.receiver, e.m, e.cap, e.outcome.Completes?).tried)
    ==> e.m.content.u == s.partial.value
  }

  /** Completing the interrupted batch, if there is one, would give what completing it at once would have given. */
  ghost predicate Mends(s: System, start: set<u32>) {
    match s.partial
    case None => s.numbers == FoldBatches(start, s.done)
    case Some(u) => exists stops :: s.numbers == Attempts(FoldBatches(start, s.done), u, stops)
  }

  lemma AttemptMends(s: System, start: set<u32>, u: Update, outcome: Outcome)
    requires Mends(s, start) && (s.partial.Some? ==> s.partial.value == u)
    ensures Mends(Attempt(s, u, outcome), start)
  {
    var base := FoldBatches(start, s.done);
    var stops: seq<nat> := [];
    if s.partial.Some? {
      stops :| s.numbers == Attempts(base, u, stops);
    }
    assert s.numbers == Attempts(base, u, stops);
    match outcome
    case Completes =>
      RetriesComplete(base, u, stops);
      assert (s.done + [u])[..|s.done|] == s.done;
    case Stops(after) =>
      assert (stops + [after])[..|stops|] == stops;
      assert Attempt(s, u, outcome).numbers == Attempts(base, u, stops + [after]);
  }

  lemma MendsStep(s: System, start: set<u32>, e: Event)
    requires Mends(s, start) && Persistent(s, e)
    ensures Mends(Step(s, e), start)
  {
    if e.BatchIn? && Enabled(s, e) {
      var r := HandleBatch(s.receiver, e.m, e.cap, e.outcome.Completes?);
      if r.tried {
        AttemptMends(s.(receiver := r.state, net := Put(s.net, r.out)), start, e.m.content.u, e.outcome);
      }
    }
  }

  /**
   If interrupted batches are retried before others are tried, the set is the
   fold of the whole chain whenever no batch is left unfinished.
   */
  lemma SetIsChainFold(s: System, es: seq<Event>)
    requires Fresh(s) && Always(Step, Persistent, s, es)
    ensures var t := Run(Step, s, es); t.partial == None ==> t.numbers == FoldBatches(s.numbers, t.done)
  {
    var start := s.numbers;
    var mends := s => Mends(s, start);
    forall s, e | Mends(s, start) && Persistent(s, e) ensures Mends(Step(s, e), start) {
      MendsStep(s, start, e);
    }
    RunPreserves(Step, mends, Persistent, s, es);
  }
}
