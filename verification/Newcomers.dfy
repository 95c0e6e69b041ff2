/** Receivers that register late: whether their next operation is still retained decides over their whole future. */
module Newcomers {
  import opened Words
  import opened OpFrames
  import opened Operations
  import opened Runs
  import opened SenderModel
  import opened SenderInvariant
  import opened Scheduling

  /** Nobody resets or unregisters receiver `rid`. */
  predicate LeavesAlone(e: Event, rid: u16) {
    && WellFormed(e)
    && (e.ProgressEvent? ==> e.rid != rid)
    && (e.UnregisterEvent? ==> e.rid != rid)
  }

  function Leaving(rid: u16): (State, Event) -> bool {
    (s: State, e: Event) => LeavesAlone(e, rid)
  }

  function Serving(k: nat): (State, Event) -> bool {
    (s: State, e: Event) => ServesSlot(s, e, k)
  }

  // ---------- Never served ----------

  /** Slot `k` is idle and what it needs next is no longer retained. */
  predicate Starved(s: State, k: nat, rid: u16, acked: u32) {
    && Inv(s) && k < |s.slots| && s.slots[k].active && s.slots[k].rid == rid && s.slots[k].acked == acked
    && !s.slots[k].waiting && acked + 1 < s.oldest
  }

  lemma StarvedStep(s: State, e: Event, k: nat, rid: u16, acked: u32)
    requires Starved(s, k, rid, acked) && LeavesAlone(e, rid)
    ensures Starved(Step(s, e), k, rid, acked) && !ServesSlot(s, e, k)
  {
    StepInv(s, e);
    FindsSlot(s, k);
    if e.PollEvent? {
      StarvedPoll(s, e.now, e.cap, k);
    } else if Step(s, e).slots != s.slots {
      var i := ChangedSlot(s, e);
      OthersChange(s, e, k, i);
    }
  }

  lemma OthersChange(s: State, e: Event, k: nat, i: nat)
    requires Inv(s) && k < |s.slots| && s.slots[k].active && !s.slots[k].waiting && s.slots[k].acked + 1 < s.oldest
    requires LeavesAlone(e, s.slots[k].rid) && !e.PollEvent? && FindSlot(s.slots, s.slots[k].rid) == k
    requires i < |s.slots| && Step(s, e).slots == s.slots[i := Step(s, e).slots[i]]
    ensures Step(s, e).slots[k] == s.slots[k]
  {}

  lemma StarvedPoll(s: State, now: u64, cap: nat, k: nat)
    requires Inv(s) && k < |s.slots| && s.slots[k].active && !s.slots[k].waiting && s.slots[k].acked + 1 < s.oldest
    ensures var t := Poll(s, now, cap).state;
            k < |t.slots| && t.slots[k] == s.slots[k] && t.oldest >= s.oldest && !Serves(s, now, cap, k)
  {
    var r, n, c := Reclaim(s), |s.slots|, Chosen(s, now);
    ChosenIsFirst(s, now);
    SweptAt(r, Start(s), c, now, k);
    if c < n {
      var j := Ahead(n, Start(s), c);
      assert j != k;
      SweptAt(r, Start(s), c, now, j);
      ServeFrame(Swept(r, Start(s), c, now), j, k, now, cap);
    }
  }

  /** Such a slot stays as it is through every run, and no poll of the run serves it. */
  lemma StarvedForever(s: State, es: seq<Event>, k: nat, rid: u16, acked: u32)
    requires Starved(s, k, rid, acked) && Always(Step, Leaving(rid), s, es)
    ensures Starved(Run(Step, s, es), k, rid, acked) && !Happens(Step, Serving(k), s, es)
  {
    var inv := s => Starved(s, k, rid, acked);
    forall s, e | inv(s) && Leaving(rid)(s, e) ensures inv(Step(s, e)) && !Serving(k)(s, e) {
      StarvedStep(s, e, k, rid, acked);
    }
    RunPreserves(Step, inv, Leaving(rid), s, es);
    NeverHappens(Step, inv, Leaving(rid), Serving(k), s, es);
  }

  // ---------- Served ----------

  /** From `s` to `u` nothing happened to slot `k` or to the history it needs. */
  predicate KeepsSlot(s: State, u: State, k: nat) {
    && k < |s.slots| == |u.slots| && u.slots[k] == s.slots[k]
    && u.log == s.log && u.cfg == s.cfg && u.seqNo == s.seqNo && u.oldest <= s.slots[k].acked + 1
  }

  lemma UnregisterKeeps(s: State, k: nat, n: nat)
    requires Inv(s) && k < |s.slots| && s.slots[k].active && s.oldest <= s.slots[k].acked + 1
    requires n < |s.slots| && n != k && s.slots[n].active
    ensures s.slots[n].rid != s.slots[k].rid
    ensures var u := Step(s, UnregisterEvent(s.slots[n].rid));
            Inv(u) && KeepsSlot(s, u, k) && u.slots == s.slots[n := Idle(s.slots[n]).(active := false)]
  {
    StepInv(s, UnregisterEvent(s.slots[n].rid));
    FindsSlot(s, n);
    FloorIsLowest(WithSlot(s, n, Idle(s.slots[n]).(active := false)).slots, Inc32(s.Latest()));
  }

  /** Unregisters the receivers of all slots from `n` on but `k`. */
  lemma {:induction false} SetAside(s: State, k: nat, n: nat) returns (es: seq<Event>)
    requires Inv(s) && k < |s.slots| && s.slots[k].active && s.oldest <= s.slots[k].acked + 1
    requires n <= |s.slots| && forall j :: 0 <= j < n && j != k ==> !s.slots[j].active
    ensures Always(Step, Leaving(s.slots[k].rid), s, es)
    ensures var u := Run(Step, s, es); Inv(u) && KeepsSlot(s, u, k) && Alone(u, k)
    decreases |s.slots| - n
  {
    if n == |s.slots| {
      es := [];
    } else if n == k || !s.slots[n].active {
      es := SetAside(s, k, n + 1);
    } else {
      UnregisterKeeps(s, k, n);
      var e := UnregisterEvent(s.slots[n].rid);
      var rest := SetAside(Step(s, e), k, n + 1);
      es := [e] + rest;
      assert es[1..] == rest;
    }
  }

  lemma LonePoll(s: State, k: nat, now: u64, cap: nat)
    requires Inv(s) && Alone(s, k) && Ready(s, k, now) && CanSend(s, cap)
    ensures Serves(s, now, cap, k)
  {
    PollSendsIffReady(s, now, cap);
    var i := PollServesFirstReady(s, now, cap);
    assert i == k;
  }

  /** Some run that neither resets nor unregisters receiver `rid` serves slot `k`. */
  ghost predicate ServedSomeday(s: State, k: nat, rid: u16) {
    exists es :: Always(Step, Leaving(rid), s, es) && Happens(Step, Serving(k), s, es)
  }

  lemma ServedLater(s: State, k: nat, cap: nat)
    requires Inv(s) && k < |s.slots| && !s.slots[k].waiting && Ready(s, k, 0) && CanSend(s, cap)
    ensures ServedSomeday(s, k, s.slots[k].rid)
  {
    var aside := SetAside(s, k, 0);
    var u, poll := Run(Step, s, aside), PollEvent(0, cap);
    LonePoll(u, k, 0, cap);
    RunLast(Step, Leaving(s.slots[k].rid), s, aside, poll);
    HappensLast(Step, Serving(k), s, aside, poll);
    assert Always(Step, Leaving(s.slots[k].rid), s, aside + [poll]) && Happens(Step, Serving(k), s, aside + [poll]);
  }

  // ---------- Late registrations ----------

  lemma NewcomerStands(s: State, rid: u16, acked: u32)
    requires Inv(s) && Register(s, rid, acked).1 && FindSlot(s.slots, rid) == |s.slots| && acked < s.Latest() < MAX_U32
    requires CanSend(s, FrameLength(DATA))
    ensures var t, k := Register(s, rid, acked).0, FreeSlot(s.slots);
            && IdleAt(t, k, rid, acked) && CanSend(t, FrameLength(DATA)) && acked < t.Latest()
            && (t.oldest <= acked + 1 <==> StillNeeded(s, acked))
  {
    NewcomerIsReady(s, rid, acked, 0);
    RegisterInv(s, rid, acked);
  }

  predicate IdleAt(s: State, k: nat, rid: u16, acked: u32) {
    && Inv(s) && k < |s.slots| && s.slots[k].active && s.slots[k].rid == rid && s.slots[k].acked == acked
    && !s.slots[k].waiting && !s.slots[k].exhausted
  }

  /** An idle lagging slot is served in some run exactly if the operation it needs is retained. */
  lemma IdleServedExactly(t: State, k: nat, rid: u16, acked: u32)
    requires IdleAt(t, k, rid, acked) && CanSend(t, FrameLength(DATA)) && acked < t.Latest()
    ensures ServedSomeday(t, k, rid) <==> t.oldest <= acked + 1
  {
    if t.oldest <= acked + 1 {
      ServedLater(t, k, FrameLength(DATA));
    } else {
      NeverServed(t, k, rid, acked);
    }
  }

  lemma NeverServed(s: State, k: nat, rid: u16, acked: u32)
    requires Starved(s, k, rid, acked)
    ensures !ServedSomeday(s, k, rid)
  {
    forall es | Always(Step, Leaving(rid), s, es) ensures !Happens(Step, Serving(k), s, es) {
      StarvedForever(s, es, k, rid, acked);
    }
  }

  /**
   A new receiver is served in some run that neither resets nor unregisters it
   if and only if the operation after its position is one that some receiver
   registered before it still needs. Otherwise no run serves it: registration
   first drops what nobody needs.
   */
  lemma NewcomerServedExactly(s: State, rid: u16, acked: u32)
    requires Inv(s) && Register(s, rid, acked).1 && FindSlot(s.slots, rid) == |s.slots| && acked < s.Latest() < MAX_U32
    requires CanSend(s, FrameLength(DATA))
    ensures var t, k := Register(s, rid, acked).0, FreeSlot(s.slots);
            ServedSomeday(t, k, rid) <==> StillNeeded(s, acked)
  {
    NewcomerStands(s, rid, acked);
    IdleServedExactly(Register(s, rid, acked).0, FreeSlot(s.slots), rid, acked);
  }

  /** Initialise, enqueue one operation, then register the first receiver at 0: it is never sent that operation. */
  lemma FirstReceiverTooLate(cfg: Config, receivers: nat, op: Op, rid: u16)
    requires 1 <= receivers <= 0x8000_0000 && cfg.capacity > 0 && ValidOp(op) && rid != 0
    ensures var t := Register(Enqueue(Init(cfg, receivers), op).0, rid, 0).0;
            t.log == [op] && t.oldest == 2 && Starved(t, 0, rid, 0)
  {
    var s := Init(cfg, receivers);
    InitInv(cfg, receivers);
    StepInv(s, EnqueueEvent(op));
    NobodyNeeds(s.slots, 1);
    NobodyNeeds(s.slots, 2);
    FreeSlotFirst(s.slots);
    RegisterInv(Enqueue(s, op).0, rid, 0);
  }

  lemma NobodyNeeds(slots: seq<Slot>, top: u32)
    requires forall i :: 0 <= i < |slots| ==> !slots[i].active
    ensures Floor(slots, top) == top && forall rid :: FindSlot(slots, rid) == |slots|
  {
    FloorIsLowest(slots, top);
    forall rid ensures FindSlot(slots, rid) == |slots| {
      FindSlotFirst(slots, rid);
    }
  }
}
