/** Runs that unregister every receiver but one: what is left of a system is then a sender with a single receiver. */
module Isolation {
  import opened Words
  import opened OpFrames
  import opened Runs
  import S = SenderModel
  import Newcomers
  import opened Replication
  import opened Convergence

  /** From `s` to `u` nothing happened to slot `k`, to the history it needs, to the receivers or to the link. */
  predicate KeepsPlace(s: System, u: System, k: nat) {
    Newcomers.KeepsSlot(s.sender, u.sender, k) && u.nodes == s.nodes && u.net == s.net
  }

  ghost predicate MayUnregister(ok: (System, Event) -> bool, rid: u16) {
    forall s: System, other: u16 :: other != rid ==> ok(s, Local(S.UnregisterEvent(other)))
  }

  lemma UnregisterOther(s: System, k: nat, n: nat)
    requires Safe(s) && k < |s.sender.slots| && s.sender.slots[k].active && s.sender.oldest <= s.sender.slots[k].acked + 1
    requires n < |s.sender.slots| && n != k && s.sender.slots[n].active
    ensures s.sender.slots[n].rid != s.sender.slots[k].rid
    ensures var v := Step(s, Local(S.UnregisterEvent(s.sender.slots[n].rid)));
            && Safe(v) && KeepsPlace(s, v, k)
            && v.sender.slots == s.sender.slots[n := S.Idle(s.sender.slots[n]).(active := false)]
  {
    SafeLocal(s, S.UnregisterEvent(s.sender.slots[n].rid));
    Newcomers.UnregisterKeeps(s.sender, k, n);
  }

  /** Unregisters the receivers of all slots from `n` on but `k`. */
  lemma {:induction false} Isolate(ok: (System, Event) -> bool, t: System, s: System, k: nat, n: nat) returns (u: System)
    requires Safe(s) && k < |s.sender.slots| && s.sender.slots[k].active && s.sender.oldest <= s.sender.slots[k].acked + 1
    requires MayUnregister(ok, s.sender.slots[k].rid) && Reaches(Step, ok, t, s)
    requires n <= |s.sender.slots| && forall j :: 0 <= j < n && j != k ==> !s.sender.slots[j].active
    ensures Reaches(Step, ok, t, u) && Safe(u) && KeepsPlace(s, u, k) && S.Alone(u.sender, k)
    decreases |s.sender.slots| - n
  {
    if n == |s.sender.slots| {
      u := s;
    } else if n == k || !s.sender.slots[n].active {
      u := Isolate(ok, t, s, k, n + 1);
    } else {
      UnregisterOther(s, k, n);
      var e := Local(S.UnregisterEvent(s.sender.slots[n].rid));
      ReachesNext(Step, ok, t, s, e);
      u := Isolate(ok, t, Step(s, e), k, n + 1);
    }
  }

  // ---------- A sender with one receiver ----------

  lemma AloneFloor(s: S.State, k: nat, top: u32)
    requires S.Alone(s, k)
    ensures S.Floor(s.slots, top) == if Inc32(s.slots[k].acked) < top then Inc32(s.slots[k].acked) else top
  {
    S.FloorIsLowest(s.slots, top);
  }

  lemma {:induction false} NoLag(latest: u32, slots: seq<S.Slot>)
    requires forall j :: 0 <= j < |slots| ==> !slots[j].active
    ensures SlotsLag(latest, slots) == 0
  {
    if slots != [] {
      NoLag(latest, slots[..|slots| - 1]);
    }
  }

  lemma {:induction false} OnlyLag(latest: u32, slots: seq<S.Slot>, k: nat)
    requires k < |slots| && forall j :: 0 <= j < |slots| && j != k ==> !slots[j].active
    ensures SlotsLag(latest, slots) == SlotLag(latest, slots[k])
  {
    var n := |slots| - 1;
    if k < n {
      OnlyLag(latest, slots[..n], k);
    } else {
      NoLag(latest, slots[..n]);
    }
  }

  lemma AloneLag(s: System, k: nat)
    requires S.Alone(s.sender, k) && s.sender.slots[k].acked <= s.sender.Latest()
    ensures Lag(s) == s.sender.Latest() - s.sender.slots[k].acked
  {
    OnlyLag(s.sender.Latest(), s.sender.slots, k);
  }

  /** A lone idle slot at its receiver's true position is in step with it. */
  lemma AloneSynced(s: System, k: nat)
    requires Safe(s) && S.Alone(s.sender, k) && s.sender.cfg.id != 0 && s.sender.cfg.stream != 0
    requires SlotSynced(s, s.sender.slots[k])
    ensures Synced(s)
  {}

  /** So many rounds move the only receiver on by as many operations. */
  lemma CaughtUpTo(t: System, k: nat, times: seq<u64>, cap: nat, position: u32)
    requires Synced(t) && S.Alone(t.sender, k) && cap >= FrameLength(DATA)
    requires t.sender.slots[k].acked + |times| == position < t.sender.Latest() && t.sender.seqNo + |times| <= MAX_U16
    ensures var v := Rounds(t, times, cap);
            && Synced(v) && S.Alone(v.sender, k) && v.sender.slots[k].acked == position
            && v.sender.slots[k].rid == t.sender.slots[k].rid && Lag(v) > 0 && t.net <= v.net
            && v.sender.log == t.sender.log && v.sender.cfg == t.sender.cfg && v.sender.seqNo == t.sender.seqNo + |times|
  {
    var v := Rounds(t, times, cap);
    AloneLag(t, k);
    RoundsLowerLag(t, times, cap);
    forall j | 0 <= j < |v.sender.slots| ensures v.sender.slots[j].active <==> j == k {
      assert v.sender.slots[j].active == t.sender.slots[j].active;
    }
    AloneLag(v, k);
  }
}
