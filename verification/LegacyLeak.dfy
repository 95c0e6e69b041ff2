/** An interrupted batch given up for another one: a run of the batch protocol in which its changes stay. */
module LegacyLeak {
  import opened Words
  import opened Crc
  import opened OpFrames
  import opened Operations
  import opened Runs
  import opened UpdateFrames
  import opened Batches
  import opened LegacyModel
  import opened LegacyChain
  import LegacyExchange

  predicate Anything(s: System, e: Event) {
    true
  }

  /** Sender and receiver are ready for update `u`: it is new, legal, and starts at the receiver's version. */
  predicate ReadyFor(s: System, u: Update, cap: nat) {
    && LegacyExchange.Paired(s.sender, s.receiver) && LegacyExchange.Consistent(s.receiver) && s.sender.phase != WaitAck
    && u.id != 0 && u.from == s.receiver.version < u.to && u.id != s.receiver.last.id && ValidBatch(u.removes, u.adds)
    && (forall g :: g in s.given ==> g.id != u.id)
    && cap >= 28 && cap >= UpdateLength(u)
  }

  /** The batch of `u` is under way and the receiver is waiting for it. */
  predicate UnderWay(s: System, t: System, u: Update, m: Message) {
    && t.sender.phase == WaitAck && t.sender.update == u && t.sender.id == s.sender.id
    && t.receiver.id == s.receiver.id && t.receiver.expectedSender == s.receiver.expectedSender
    && t.receiver.version == s.receiver.version && t.receiver.last == s.receiver.last && t.receiver.pending.id == u.id
    && t.given == s.given + {u} && t.done == s.done && t.numbers == s.numbers && t.partial == s.partial
    && m in t.net && LegalMessage(m) && m.content == Batch(u)
    && m.header.sender == s.sender.id && m.header.receiver == s.receiver.id
    && Validate(t.receiver, m) == ERR_NONE
    && t.confirmed == s.confirmed && s.net <= t.net && OnlyAbout(u, s.net, t.net)
    && t.sender.target == s.receiver.id && t.sender.retries == 0
  }

  /** The link has only gained what a delivered exchange of `u` puts there. */
  predicate OnlyAbout(u: Update, before: set<Message>, after: set<Message>) {
    forall x :: x in after && x !in before ==>
      x.content.Offer? || x.content == Wanted(u.id, u.from) || x.content == Batch(u) || x.content == Done(u.id, u.to)
  }

  /** A request for update `u`. */
  predicate AsksFor(s: System, u: Update, q: Message) {
    LegalMessage(q) && q.header.receiver == s.sender.id && q.content == Wanted(u.id, s.receiver.version)
  }

  /** Update `u` is given; the rest of the system is as it was. */
  predicate OnOffer(s: System, t: System, u: Update) {
    && LegacyExchange.Offering(t.sender) && t.sender.update == u && t.sender.id == s.sender.id
    && t == s.(sender := t.sender, given := s.given + {u})
  }

  lemma Given(o: System, s: System, u: Update, cap: nat) returns (t: System)
    requires ReadyFor(s, u, cap) && Reaches(Step, Anything, o, s)
    ensures Reaches(Step, Anything, o, t) && OnOffer(s, t, u)
  {
    LegacyExchange.GivenIsOffered(s.sender, 0, u);
    ReachesNext(Step, Anything, o, s, Give(0, u));
    t := Step(s, Give(0, u));
  }

  /** Announce, ask. */
  lemma Asked(o: System, s: System, u: Update, cap: nat) returns (t: System, q: Message)
    requires LegacyExchange.Paired(s.sender, s.receiver) && LegacyExchange.Offering(s.sender) && s.sender.update == u
    requires u.to > s.receiver.version && cap >= 28 && Reaches(Step, Anything, o, s)
    ensures Reaches(Step, Anything, o, t) && q in t.net && LegalMessage(q)
    ensures q.header.sender == s.receiver.id && q.header.receiver == s.sender.id
            && q.content == Wanted(u.id, s.receiver.version)
    ensures t == s.(sender := s.sender.(seqNo := t.sender.seqNo), receiver := t.receiver, net := t.net)
    ensures s.net <= t.net && forall x :: x in t.net && x !in s.net ==> x.content.Offer? || x == q
    ensures t.receiver == s.receiver.(seqNo := t.receiver.seqNo, waiting := true, retries := 0,
                                      pending := LegacyExchange.Announced(s.sender))
  {
    LegacyExchange.BeaconAsks(s.sender, s.receiver, cap);
    var b := BuildBeacon(s.sender, cap).out.value;
    ReachesNext(Step, Anything, o, s, Announce(cap));
    ReachesNext(Step, Anything, o, Step(s, Announce(cap)), BeaconIn(b, cap));
    t := Step(Step(s, Announce(cap)), BeaconIn(b, cap));
    q := HandleBeacon(s.receiver, b, cap).out.value;
  }

  /** The receiver was told the true checksum of `u`. */
  predicate HoldsChecksum(r: Receiver, u: Update) {
    r.pending.crc == CrcOf(UpdatePayload(u))
  }

  /** Give, announce, ask, send. */
  lemma BatchSent(o: System, s: System, u: Update, cap: nat) returns (t: System, m: Message, q: Message)
    requires ReadyFor(s, u, cap) && Reaches(Step, Anything, o, s)
    ensures Reaches(Step, Anything, o, t) && UnderWay(s, t, u, m) && q in t.net && AsksFor(s, u, q)
    ensures HoldsChecksum(t.receiver, u)
  {
    var g := Given(o, s, u, cap);
    var w;
    w, q := Asked(o, g, u, cap);
    LegacyExchange.RequestServed(w.sender, q, cap);
    m := HandleRequest(w.sender, q, cap).out.value;
    LegacyExchange.AnnouncedBatchPasses(w.sender, w.receiver, m);
    ReachesNext(Step, Anything, o, w, RequestIn(q, cap));
    t := Step(w, RequestIn(q, cap));
  }

  /** The engine fails after `k` calls; the refusal ends the exchange at the sender. */
  lemma BatchFails(o: System, s: System, t: System, u: Update, m: Message, k: nat, cap: nat) returns (v: System, a: Message)
    requires ReadyFor(s, u, cap) && UnderWay(s, t, u, m) && Reaches(Step, Anything, o, t) && k <= |Calls(u)|
    ensures Reaches(Step, Anything, o, v)
    ensures v.numbers == Fold(s.numbers, Calls(u)[..k]) && v.done == s.done && v.given == s.given + {u}
    ensures LegacyExchange.Paired(v.sender, v.receiver) && v.sender.phase == Idle
    ensures v.receiver.version == s.receiver.version && v.receiver.last == s.receiver.last
    ensures t.net <= v.net && v.confirmed == s.confirmed && v.sender.id == s.sender.id
    ensures a in v.net && a.header.receiver == s.sender.id && a.content == Refused(u.id, ERR_BATCH_FAILED, 0)
  {
    var e := BatchIn(m, cap, Stops(k));
    a := HandleBatch(t.receiver, m, cap, false).out.value;
    ReachesNext(Step, Anything, o, t, e);
    ReachesNext(Step, Anything, o, Step(t, e), AnswerIn(a));
    v := Step(Step(t, e), AnswerIn(a));
  }

  lemma BatchSucceeds(o: System, s: System, t: System, u: Update, m: Message, cap: nat) returns (v: System, a: Message)
    requires ReadyFor(s, u, cap) && UnderWay(s, t, u, m) && Reaches(Step, Anything, o, t)
    ensures Reaches(Step, Anything, o, v)
    ensures v.numbers == Fold(s.numbers, Calls(u)) && v.done == s.done + [u] && v.partial == None
    ensures v.sender == t.sender && v.confirmed == s.confirmed && v.given == t.given
    ensures t.net <= v.net && OnlyAbout(u, s.net, v.net)
    ensures a in v.net && a.header.receiver == s.sender.id && a.content == Done(u.id, u.to)
    ensures v.receiver.id == s.receiver.id && v.receiver.expectedSender == s.receiver.expectedSender
    ensures v.receiver.version == v.receiver.last.to == u.to && v.receiver.last.id == u.id
  {
    var e := BatchIn(m, cap, Completes);
    a := HandleBatch(t.receiver, m, cap, true).out.value;
    ReachesNext(Step, Anything, o, t, e);
    v := Step(t, e);
  }

  /**
   Two updates from the receiver's version: the engine stops after `k` calls
   of the first, and the second completes. The chain holds the second alone,
   the set what `k` calls of the first left and then the second.
   */
  lemma GivenUp(s: System, first: Update, second: Update, k: nat, cap: nat) returns (v: System)
    requires ReadyFor(s, first, cap) && ReadyFor(s, second, cap) && first.id != second.id && k <= |Calls(first)|
    ensures Reaches(Step, Anything, s, v) && v.done == s.done + [second] && v.partial == None
    ensures v.numbers == Fold(Fold(s.numbers, Calls(first)[..k]), Calls(second))
    ensures v.numbers == Fold(s.numbers, Calls(second)) <==>
              forall i :: 0 <= i < k ==> Touches(Calls(second), Calls(first)[i].value) || Redundant(s.numbers,
                  Calls(first)[i])
  {
    ReachesSelf(Step, Anything, s);
    var t, m, _ := BatchSent(s, s, first, cap);
    var q, _ := BatchFails(s, s, t, first, m, k, cap);
    var t', m', _ := BatchSent(s, q, second, cap);
    var ack;
    v, ack := BatchSucceeds(s, q, t', second, m', cap);
    AbandonedBatch(s.numbers, first, k, second);
  }

  /** A sender and a receiver just initialised. */
  function Start(): System {
    System(SenderInit(10, 3), ReceiverInit(20, 10, 3, 0, 0), {}, {}, [], {}, {}, None)
  }

  const FIRST := Update(1, 0, 1, [], [5])
  const SECOND := Update(2, 0, 1, [], [])

  lemma SmallBatches(calls: seq<Op>, none: seq<Op>)
    requires calls == Calls(FIRST) && none == Calls(SECOND)
    ensures |calls| == 1 && Fold({}, calls[..1]) == {5} && none == []
  {
    CallAt(FIRST, 0);
    assert calls == [Op(ADD, 5)] && calls[..1] == calls && calls[..0] == [];
  }

  lemma StartsReady(u: Update)
    requires u == FIRST || u == SECOND
    ensures ReadyFor(Start(), u, 1000)
  {}

  /** Adding 5 is cut short before the flush and given up for an empty batch: the set keeps 5, the chain never had it. */
  lemma LeakHappens() returns (v: System)
    ensures Fresh(Start()) && Reaches(Step, Anything, Start(), v)
    ensures v.partial == None && v.numbers == {5} && FoldBatches(Start().numbers, v.done) == {}
  {
    SmallBatches(Calls(FIRST), Calls(SECOND));
    StartsReady(FIRST);
    StartsReady(SECOND);
    v := GivenUp(Start(), FIRST, SECOND, 1, 1000);
    assert v.done == [SECOND] && [SECOND][..0] == [];
  }
}
