/** Runs from initialisation into the two situations the protocol does not get out of by itself. */
module Scenarios {
  import opened Words
  import opened OpFrames
  import opened Operations
  import opened Runs
  import S = SenderModel
  import I = SenderInvariant
  import Scheduling
  import R = Receiver
  import opened Replication
  import opened Truncation
  import opened Convergence
  import opened Restarts
  import opened Retransmission
  import opened Stalls
  import opened Setup

  /** An initialised sender with room for two receivers, and two receivers that have applied nothing. */
  ghost predicate TwoReceivers(s: System, a: u16, b: u16) {
    && NoRegistrations(s) && s.sender.cfg.id != 0 && s.sender.cfg.stream != 0 && s.sender.cfg.capacity > 0
    && |s.sender.slots| >= 2 && s.sender.log == [] && s.sender.seqNo == 1 && s.sender.cursor == 0
    && a != b && a != 0 && b != 0 && Listens(s, a) && Listens(s, b)
    && s.nodes[a].r.last == 0 && s.nodes[b].r.last == 0
  }

  function Registered(s: System, rid: u16): System {
    Step(s, Local(S.RegisterEvent(rid, 0)))
  }

  lemma TwoRegistered(s: System, a: u16, b: u16)
    requires TwoReceivers(s, a, b)
    ensures var t := Registered(Registered(s, a), b);
            && Reaches(Step, Loose, s, t) && Synced(t) && t.nodes == s.nodes && t.sender.cfg == s.sender.cfg
            && t.sender.seqNo == 1 && t.sender.log == []
            && |t.sender.slots| >= 2 && t.sender.slots[0].active && t.sender.slots[1].active
            && t.sender.slots[0].acked == t.sender.slots[1].acked == 0 && t.sender.cursor == 0
            && (forall i {:trigger t.sender.slots[i]} :: 2 <= i < |t.sender.slots| ==> !t.sender.slots[i].active)
  {
    var q := Registered(s, a);
    InitialSynced(s);
    FirstRegistered(s, a);
    RegisterKeepsSync(s, a, 0);
    SecondRegistered(q, b);
    RegisterKeepsSync(q, b, 0);
    ReachesSelf(Step, Loose, s);
    ReachesNext(Step, Loose, s, s, Local(S.RegisterEvent(a, 0)));
    ReachesNext(Step, Loose, s, q, Local(S.RegisterEvent(b, 0)));
  }

  lemma FirstRegistered(s: System, rid: u16)
    requires I.Inv(s.sender) && s.sender.log == [] && s.sender.slots != [] && rid != 0
    requires forall j :: 0 <= j < |s.sender.slots| ==> !s.sender.slots[j].active
    ensures var t := Registered(s, rid);
            && t.sender.(slots := s.sender.slots) == s.sender && t.nodes == s.nodes && t.net == s.net
            && t.sender.slots == s.sender.slots[0 := t.sender.slots[0]]
            && t.sender.slots[0].active && t.sender.slots[0].rid == rid && t.sender.slots[0].acked == 0
  {
    S.FreeSlotFirst(s.sender.slots);
    S.FloorAtMost(s.sender.slots, 1);
  }

  lemma SecondRegistered(s: System, rid: u16)
    requires I.Inv(s.sender) && s.sender.log == [] && |s.sender.slots| >= 2 && rid != 0
    requires s.sender.slots[0].active && s.sender.slots[0].rid != rid
    requires forall j :: 1 <= j < |s.sender.slots| ==> !s.sender.slots[j].active
    ensures var t := Registered(s, rid);
            && t.sender.(slots := s.sender.slots) == s.sender && t.nodes == s.nodes && t.net == s.net
            && t.sender.slots == s.sender.slots[1 := t.sender.slots[1]]
            && t.sender.slots[1].active && t.sender.slots[1].rid == rid && t.sender.slots[1].acked == 0
  {
    S.FreeSlotFirst(s.sender.slots);
    S.FloorAtMost(s.sender.slots, 1);
  }

  lemma FirstEnqueued(s: System, op: Op)
    requires Synced(s) && s.sender.log == [] && s.sender.cfg.capacity > 0 && ValidOp(op)
    ensures var t := Step(s, Local(S.EnqueueEvent(op)));
            && Synced(t) && t.sender.log == [op] && t.sender.slots == s.sender.slots && t.nodes == s.nodes
            && t.sender.cfg == s.sender.cfg && t.sender.seqNo == s.sender.seqNo
  {
    EnqueueKeepsSync(s, S.EnqueueEvent(op));
    S.FloorAtMost(s.sender.slots, 1);
  }

  lemma LooseTracks(s: System, t: System)
    requires NoRegistrations(s) && Reaches(Step, Loose, s, t)
    ensures Tracks(t, false)
  {
    var es :| Always(Step, Loose, s, es) && Run(Step, s, es) == t;
    NothingTracked(s, false);
    RunTracks(s, es, Loose, false);
  }

  /** Register two receivers, enqueue one operation, and let one round serve one of them. */
  lemma OneOfTwoServed(s: System, a: u16, b: u16, op: Op, now: u64, cap: nat) returns (t: System, k: nat)
    requires TwoReceivers(s, a, b) && ValidOp(op) && cap >= FrameLength(DATA)
    ensures Reaches(Step, Loose, s, t) && Tracks(t, false) && Speaking(t, k) && t.sender.Latest() == 1 && t.sender.seqNo == 2
    ensures var rid := t.sender.slots[k].rid;
            && t.sender.oldest == 1 && t.nodes[rid].r.last == 1
            && exists f :: f in t.net && AcksBeyond(t.sender.cfg, f, rid, 0)
  {
    var q := Registered(Registered(s, a), b);
    TwoRegistered(s, a, b);
    var p := Step(q, Local(S.EnqueueEvent(op)));
    FirstEnqueued(q, op);
    ReachesNext(Step, Loose, s, q, Local(S.EnqueueEvent(op)));
    SyncedPositions(p);
    LagZero(p.sender.Latest(), p.sender.slots);
    assert p.sender.slots[0].active;
    t := Round(p, now, cap);
    k := RoundMoves(p, now, cap);
    RoundLowersLag(p, now, cap);
    RoundReached(s, p, now, cap);
    LooseTracks(s, t);
    var other := if k == 0 then 1 else 0;
    assert SlotSynced(t, t.sender.slots[k]) && SlotSynced(t, t.sender.slots[other]);
  }

  /**
   From initialisation to a lost operation: of two registered receivers one
   applies the only operation and falls back to the start, the sender is told
   so, and a run follows in which it can never be sent that operation again.
   */
  lemma FallBackHappens(s: System, a: u16, b: u16, op: Op, cap: nat) returns (t: System, rid: u16, u: System)
    requires TwoReceivers(s, a, b) && ValidOp(op) && cap >= FrameLength(DATA)
    ensures Reaches(Step, Loose, s, t) && rid in t.nodes && t.nodes[rid].r.last == 1
    ensures Reaches(Step, Loose, FallBack(t, rid, 0), u) && Loses(u, rid)
  {
    var k;
    t, k := OneOfTwoServed(s, a, b, op, 0, cap);
    rid := t.sender.slots[k].rid;
    var f :| f in t.net && AcksBeyond(t.sender.cfg, f, rid, 0);
    u := FallBackLoses(t, k, rid, 0, f, cap);
  }

  /** The sender and the two receivers of the demo program. */
  function Demo(): System {
    System(S.Init(S.Config(10, 5001, 100, 3, 128), 16),
           map[21 := Node(R.Init(21, 10, 5001, 0), 0, [], {}, 0), 22 := Node(R.Init(22, 10, 5001, 0), 0, [], {}, 0)], {})
  }

  lemma DemoIsSuch()
    ensures TwoReceivers(Demo(), 21, 22)
  {
    I.InitInv(S.Config(10, 5001, 100, 3, 128), 16);
  }

  // ---------- A position named too low ----------

  /** Of the ready slots `k` is the next in cyclic order. */
  predicate NextInLine(s: S.State, k: nat, now: u64) {
    && k < |s.slots| && S.Ready(s, k, now)
    && forall j :: 0 <= j < |s.slots| && S.Ready(s, j, now) ==>
         S.Distance(|s.slots|, S.Start(s), k) <= S.Distance(|s.slots|, S.Start(s), j)
  }

  lemma NextIsServed(s: System, k: nat, now: u64, cap: nat)
    requires Paced(s) && NextInLine(s.sender, k, now) && cap >= FrameLength(DATA) && s.sender.seqNo < MAX_U16
    ensures var e := S.Poll(s.sender, now, cap);
            && e.frame.Some? && ResentTo(s.sender, e.state, k, e.frame.value)
            && e.state.cursor == (if k + 1 == |s.sender.slots| then 0 else k + 1)
            && e.state.slots[k].due == S.Deadline(now, s.sender.cfg.timeout)
  {
    Scheduling.PollSendsIffReady(s.sender, now, cap);
    var i := Scheduling.PollServesFirstReady(s.sender, now, cap);
    assert S.Distance(|s.sender.slots|, S.Start(s.sender), i) == S.Distance(|s.sender.slots|, S.Start(s.sender), k);
    assert i == k;
    assert SlotPaced(s, s.sender.slots[k]);
    NothingGivenUp(s, S.Distance(|s.sender.slots|, S.Start(s.sender), k), now);
  }

  lemma NextPolled(s: System, k: nat, now: u64, cap: nat) returns (p: System, f: Frame)
    requires Paced(s) && NextInLine(s.sender, k, now) && cap >= FrameLength(DATA) && s.sender.seqNo < MAX_U16
    ensures p == Step(s, Local(S.PollEvent(now, cap))) && Round(s, now, cap) == Exchange(p, f, now, cap, R.Succeeds)
    ensures Safe(p) && p.nodes == s.nodes && f in p.net && s.net <= p.net && ResentTo(s.sender, p.sender, k, f)
    ensures p.sender.cursor == (if k + 1 == |s.sender.slots| then 0 else k + 1)
    ensures p.sender.slots[k].due == S.Deadline(now, s.sender.cfg.timeout)
  {
    NextIsServed(s, k, now, cap);
    SafeLocal(s, S.PollEvent(now, cap));
    PollSent(s, now, cap);
    p, f := Step(s, Local(S.PollEvent(now, cap))), S.Poll(s.sender, now, cap).frame.value;
  }

  lemma PollSent(s: System, now: u64, cap: nat)
    requires S.Poll(s.sender, now, cap).frame.Some?
    ensures var e, p := S.Poll(s.sender, now, cap), Step(s, Local(S.PollEvent(now, cap)));
            && p == s.(sender := e.state, net := s.net + {e.frame.value})
            && Round(s, now, cap) == Exchange(p, e.frame.value, now, cap, R.Succeeds)
  {}

  /** What a round for the next slot in line leaves, delivered or lost. */
  predicate RoundLeft(s: System, t: System, k: nat, now: u64, outcome: Outcome) {
    && Touched(s, t, k) && Served(s.sender, s.sender.slots[k], t.sender.slots[k], outcome)
    && t.sender.cursor as int == (if k + 1 == |s.sender.slots| then 0 else k + 1)
    && t.sender.seqNo as int == s.sender.seqNo + 1 && s.net <= t.net
    && (outcome == Waits ==> t.sender.slots[k].due == S.Deadline(now, s.sender.cfg.timeout))
  }

  lemma DeliveredNext(o: System, s: System, k: nat, now: u64, cap: nat) returns (t: System, a: Frame)
    requires Paced(s) && NextInLine(s.sender, k, now) && cap >= FrameLength(DATA) && s.sender.seqNo < MAX_U16
    requires Reaches(Step, Loose, o, s)
    ensures Reaches(Step, Loose, o, t) && Paced(t) && RoundLeft(s, t, k, now, Advances) && a in t.net
            && Answers(s, k, a, true)
  {
    var p, f := NextPolled(s, k, now, cap);
    t, a := DeliveredLeft(s, p, k, f, now, cap);
    RoundKeepsNet(s, now, cap);
    RoundReached(o, s, now, cap);
  }

  lemma DeliveredLeft(s: System, p: System, k: nat, f: Frame, now: u64, cap: nat) returns (t: System, a: Frame)
    requires Paced(s) && Safe(p) && p.nodes == s.nodes && f in p.net && ResentTo(s.sender, p.sender, k, f)
    requires cap >= FrameLength(DATA)
    ensures t == Exchange(p, f, now, cap, R.Succeeds) && Paced(t) && Touched(s, t, k)
    ensures Served(s.sender, s.sender.slots[k], t.sender.slots[k], Advances) && a in t.net && Answers(s, k, a, true)
    ensures t.sender.seqNo == p.sender.seqNo && t.sender.cursor == p.sender.cursor
  {
    a := AnsweredRound(s, p, k, f, now, cap, R.Succeeds);
    t := Exchange(p, f, now, cap, R.Succeeds);
  }

  lemma LostNext(o: System, s: System, k: nat, now: u64, cap: nat) returns (t: System)
    requires Paced(s) && NextInLine(s.sender, k, now) && cap >= FrameLength(DATA) && s.sender.seqNo < MAX_U16
    requires Reaches(Step, Loose, o, s) && !s.sender.slots[k].waiting && s.sender.cfg.maxRetries > 0
    ensures Reaches(Step, Loose, o, t) && Paced(t) && RoundLeft(s, t, k, now, Waits)
  {
    var f;
    t, f := NextPolled(s, k, now, cap);
    LostLeft(s, t, k, f);
    ReachesNext(Step, Loose, o, s, Local(S.PollEvent(now, cap)));
  }

  lemma LostLeft(s: System, t: System, k: nat, f: Frame)
    requires Paced(s) && Safe(t) && t.nodes == s.nodes && ResentTo(s.sender, t.sender, k, f)
    requires !s.sender.slots[k].waiting && s.sender.cfg.maxRetries > 0
    ensures Paced(t) && Touched(s, t, k) && Served(s.sender, s.sender.slots[k], t.sender.slots[k], Waits)
  {
    SentRound(s, t, k, f);
    LossAdvances(s, t, k, f);
  }

  /** Two registered receivers and a log of two operations. */
  predicate OnlyTwo(s: System, first: u32, second: u32) {
    && |s.sender.slots| >= 2 && s.sender.slots[0].active && s.sender.slots[1].active
    && (forall i {:trigger s.sender.slots[i]} :: 2 <= i < |s.sender.slots| ==> !s.sender.slots[i].active)
    && s.sender.Latest() == 2 && s.sender.slots[0].acked == first && s.sender.slots[1].acked == second
  }

  /** Slot 0 is next while the cursor is on it and it lags. */
  lemma FirstInLine(s: System, second: u32)
    requires Paced(s) && OnlyTwo(s, 0, second) && s.sender.cursor == 0 && !s.sender.slots[0].waiting
    ensures NextInLine(s.sender, 0, 0)
  {
    SmallMod(0, |s.sender.slots|);
    assert SlotPaced(s, s.sender.slots[0]);
  }

  lemma SecondInLine(s: System, first: u32)
    requires Paced(s) && OnlyTwo(s, first, 0) && s.sender.cursor == 1 && !s.sender.slots[1].waiting
    ensures NextInLine(s.sender, 1, 0)
  {
    SmallMod(1, |s.sender.slots|);
    assert SlotPaced(s, s.sender.slots[1]);
  }

  /** Slot 0 is next wherever the cursor is if slot 1 is not due. */
  lemma FirstAgain(s: System)
    requires Paced(s) && OnlyTwo(s, 1, 0) && !s.sender.slots[0].waiting && s.sender.slots[1].waiting
             && s.sender.slots[1].due > 0
    ensures NextInLine(s.sender, 0, 0)
  {
    assert SlotPaced(s, s.sender.slots[0]);
    assert !S.Ready(s.sender, 1, 0);
  }

  /** The first receiver applies both operations while the frame to the second is lost. */
  lemma OneRunsAhead(o: System, p: System, cap: nat) returns (t: System, a: Frame)
    requires Reaches(Step, Loose, o, p) && Paced(p) && OnlyTwo(p, 0, 0) && p.sender.cursor == 0 && p.sender.seqNo == 1
    requires !p.sender.slots[0].waiting && !p.sender.slots[1].waiting && cap >= FrameLength(DATA)
    requires p.sender.cfg.maxRetries > 0 && p.sender.cfg.timeout > 0
    ensures Reaches(Step, Loose, o, t) && Paced(t) && OnlyTwo(t, 2, 0) && t.sender.seqNo == 4 && t.sender.cfg == p.sender.cfg
    ensures t.sender.slots[0].rid == p.sender.slots[0].rid && !t.sender.slots[0].waiting
    ensures a in t.net && Answers(p, 0, a, true)
  {
    FirstInLine(p, 0);
    var q, w, b;
    q, a := DeliveredNext(o, p, 0, 0, cap);
    SecondInLine(q, 1);
    w := LostNext(o, q, 1, 0, cap);
    FirstAgain(w);
    t, b := DeliveredNext(o, w, 0, 0, cap);
  }

  lemma TwoEnqueued(s: System, adds: seq<u32>)
    requires Synced(s) && s.sender.log == [] && s.sender.cfg.capacity >= 2 && |adds| == 2 && InRange(adds)
    ensures var t := Step(s, Local(S.ListsEvent([], adds)));
            && Synced(t) && t.sender.Latest() == 2 && t.sender.slots == s.sender.slots && t.nodes == s.nodes
            && t.sender.cfg == s.sender.cfg && t.sender.seqNo == s.sender.seqNo && t.sender.cursor == s.sender.cursor
  {
    EnqueueKeepsSync(s, S.ListsEvent([], adds));
  }

  /**
   From initialisation to a slot too far behind: a receiver has applied two
   operations, its record is reset to 0 while the history is still held for
   another one, and only an old ACK can move its slot.
   */
  lemma TooLowHappens(s: System, a: u16, b: u16, adds: seq<u32>, cap: nat) returns (t: System, f: Frame)
    requires TwoReceivers(s, a, b) && |adds| == 2 && InRange(adds) && cap >= FrameLength(DATA)
    requires s.sender.cfg.capacity >= 2 && s.sender.cfg.maxRetries > 0 && s.sender.cfg.timeout > 0
    ensures Reaches(Step, Loose, s, t) && t.sender.slots != [] && var rid := t.sender.slots[0].rid;
            && Safe(t) && Behind(t, 0, rid, 0) && t.sender.oldest == 1 && t.sender.seqNo < MAX_U16
               && !t.sender.slots[0].exhausted
            && f in t.net && AcksNext(t.sender.cfg, f, rid, 0)
  {
    var q := Registered(Registered(s, a), b);
    TwoRegistered(s, a, b);
    var p := Step(q, Local(S.ListsEvent([], adds)));
    TwoEnqueued(q, adds);
    ReachesNext(Step, Loose, s, q, Local(S.ListsEvent([], adds)));
    SyncedIsPaced(p);
    assert SlotSynced(p, p.sender.slots[0]) && SlotSynced(p, p.sender.slots[1]);
    var w;
    w, f := OneRunsAhead(s, p, cap);
    var rid := w.sender.slots[0].rid;
    assert SlotPaced(w, w.sender.slots[0]) && SlotPaced(w, w.sender.slots[1]);
    t := Step(w, Local(S.ProgressEvent(rid, 0)));
    ResetTooLow(w, rid);
    ReachesNext(Step, Loose, s, w, Local(S.ProgressEvent(rid, 0)));
    LooseTracks(s, t);
  }

  lemma ResetTooLow(w: System, rid: u16)
    requires Paced(w) && OnlyTwo(w, 2, 0) && rid == w.sender.slots[0].rid && rid in w.nodes && w.sender.oldest <= 1
    ensures var t := Step(w, Local(S.ProgressEvent(rid, 0)));
            && Safe(t) && t.nodes == w.nodes && t.net == w.net && t.sender.cfg == w.sender.cfg
               && t.sender.seqNo == w.sender.seqNo
            && t.sender.slots == w.sender.slots[0 := S.Idle(w.sender.slots[0]).(acked := 0)] && t.sender.oldest == 1
  {
    SafeLocal(w, S.ProgressEvent(rid, 0));
    I.FindsSlot(w.sender, 0);
    ReclaimKeepsNeeded(S.WithSlot(w.sender, 0, S.Idle(w.sender.slots[0]).(acked := 0)), 0);
  }
}
