/**
 One sender, any number of receivers, and a link that may lose, duplicate,
 reorder and delay: the network is the set of all frames ever sent, and any
 of them may be delivered at any time, any number of times. Receivers may
 restart at an older checkpoint, and callbacks may fail with or without
 having made their change.
 */
module Replication {
  import opened Words
  import opened OpFrames
  import opened Operations
  import opened Runs
  import S = SenderModel
  import I = SenderInvariant
  import Scheduling
  import R = Receiver

  /**
   A receiver with what it has done: `start` is the position it last started
   from, `applied` what it applied since, `numbers` the set its callback
   maintains, and `high` the highest log position that set may reflect.
   */
  datatype Node = Node(r: R.State, start: u32, applied: seq<Op>, numbers: set<u32>, high: nat)

  datatype System = System(sender: S.State, nodes: map<u16, Node>, net: set<Frame>)

  datatype Event =
    | Local(call: S.Event)                                            // any sender call but handle_rx
    | SendBeacon(cap: nat)
    | ToSender(frame: Frame, now: u64)
    | DataTo(rid: u16, frame: Frame, cap: nat, callback: R.Callback)
    | BeaconTo(rid: u16, frame: Frame, cap: nat)
    | Restart(rid: u16, position: u32)

  function Sent(net: set<Frame>, f: Option<Frame>): set<Frame> {
    match f
    case None => net
    case Some(frame) => net + {frame}
  }

  /** A node after handling a DATA frame. */
  function AfterData(node: Node, f: Frame, cap: nat, callback: R.Callback): Node
    requires f.payload.Data? && Legal(f)
  {
    var e := R.HandleData(node.r, f, cap, callback);
    var op := Op(f.payload.opType, f.payload.value);
    if e.ran && callback == R.Succeeds then
      node.(r := e.state, applied := node.applied + [op], numbers := Apply(node.numbers, op))
    else if e.ran && callback == R.FailsDirty then
      node.(r := e.state, numbers := Apply(node.numbers, op),
          high := if node.high > node.r.last then node.high else node.r.last + 1)
    else node.(r := e.state)
  }

  /** Restarting keeps the set but falls back to an older position. */
  function AfterRestart(node: Node, position: u32): Node
    requires position <= node.r.last
  {
    node.(r := R.Init(node.r.id, node.r.expectedSender, node.r.stream, position), start := position, applied := [],
          high := if node.high > node.r.last then node.high else node.r.last)
  }

  predicate Enabled(s: System, e: Event) {
    match e
    case Local(call) => !call.RxEvent? && I.WellFormed(call)
    case SendBeacon(_) => true
    case ToSender(f, _) => f in s.net
    case DataTo(rid, f, _, _) => f in s.net && rid in s.nodes && f.payload.Data? && Legal(f)
    case BeaconTo(rid, f, _) => f in s.net && rid in s.nodes && f.payload.Beacon? && Legal(f)
    case Restart(rid, position) => rid in s.nodes && position <= s.nodes[rid].r.last
  }

  /** One step; an event that is not enabled changes nothing. */
  function Step(s: System, e: Event): System {
    if !Enabled(s, e) then s
    else
      match e
      case Local(call) =>
        var frame := if call.PollEvent? then S.Poll(s.sender, call.now, call.cap).frame else None;
        s.(sender := S.Step(s.sender, call), net := Sent(s.net, frame))
      case SendBeacon(cap) => s.(net := Sent(s.net, S.BeaconFrame(s.sender, cap)))
      case ToSender(f, now) => s.(sender := S.HandleRx(s.sender, now, f).0)
      case DataTo(rid, f, cap, callback) =>
        var node := s.nodes[rid];
        s.(nodes := s.nodes[rid := AfterData(node, f, cap, callback)],
           net := Sent(s.net, R.HandleData(node.r, f, cap, callback).reply))
      case BeaconTo(rid, f, cap) =>
        var a := R.HandleBeacon(s.nodes[rid].r, f, cap);
        s.(nodes := s.nodes[rid := s.nodes[rid].(r := a.state)], net := Sent(s.net, a.reply))
      case Restart(rid, position) => s.(nodes := s.nodes[rid := AfterRestart(s.nodes[rid], position)])
  }

  // ---------- Prefix consistency ----------

  /** A DATA frame carries an entry of the log. */
  predicate FrameOk(log: seq<Op>, f: Frame) {
    f.payload.Data? ==> 1 <= f.payload.opId <= |log| && log[f.payload.opId - 1] == Op(f.payload.opType, f.payload.value)
  }

  function Max(a: nat, b: nat): nat { if a >= b then a else b }

  /** The set agrees with the log's first `last` entries wherever entries last+1..high do not interfere. */
  ghost predicate Reflects(numbers: set<u32>, log: seq<Op>, last: nat, high: nat) {
    && last <= |log| && high <= |log|
    && forall v :: !Touches(log[last..Max(last, high)], v) ==> (v in numbers <==> v in Fold({}, log[..last]))
  }

  /** What a node applied since it started is the log from there on, in order and once each. */
  ghost predicate NodeOk(log: seq<Op>, node: Node) {
    && node.start <= node.r.last <= |log|
    && node.applied == log[node.start..node.r.last]
    && Reflects(node.numbers, log, node.r.last, node.high)
  }

  ghost predicate Safe(s: System) {
    && I.Inv(s.sender)
    && (forall f :: f in s.net ==> FrameOk(s.sender.log, f))
    && (forall rid :: rid in s.nodes ==> NodeOk(s.sender.log, s.nodes[rid]))
  }

  lemma TouchesSlice(log: seq<Op>, lo: nat, hi: nat, i: nat)
    requires lo <= i < hi <= |log|
    ensures Touches(log[lo..hi], log[i].value)
  {
    assert log[lo..hi][i - lo] == log[i];
  }

  lemma TouchesWider(log: seq<Op>, lo: nat, hi: nat, lo': nat, hi': nat, v: u32)
    requires lo' <= lo <= hi <= hi' <= |log| && Touches(log[lo..hi], v)
    ensures Touches(log[lo'..hi'], v)
  {
    var i :| 0 <= i < hi - lo && log[lo..hi][i].value == v;
    TouchesSlice(log, lo', hi', lo + i);
  }

  lemma FoldNext(log: seq<Op>, last: nat)
    requires last < |log|
    ensures Fold({}, log[..last + 1]) == Apply(Fold({}, log[..last]), log[last])
  {
    assert log[..last + 1][..last] == log[..last];
  }

  /** Applying the next entry, whether or not the set already reflects it. */
  lemma ReflectsApply(numbers: set<u32>, log: seq<Op>, last: nat, high: nat)
    requires Reflects(numbers, log, last, high) && last < |log|
    ensures Reflects(Apply(numbers, log[last]), log, last + 1, high)
  {
    var top := Max(last, high);
    FoldNext(log, last);
    forall v | Touches(log[last..top], v) && v != log[last].value
      ensures Touches(log[last + 1..Max(last + 1, high)], v)
    {
      var i :| 0 <= i < top - last && log[last..top][i].value == v;
      TouchesSlice(log, last + 1, Max(last + 1, high), last + i);
    }
  }

  /** A callback that made the change but reported failure only moves the high mark. */
  lemma ReflectsDirty(numbers: set<u32>, log: seq<Op>, last: nat, high: nat, high': nat)
    requires Reflects(numbers, log, last, high) && last < high' <= |log| && high <= high'
    ensures Reflects(Apply(numbers, log[last]), log, last, high')
  {
    TouchesSlice(log, last, high', last);
    forall v | Touches(log[last..Max(last, high)], v) ensures Touches(log[last..high'], v) {
      TouchesWider(log, last, Max(last, high), last, high', v);
    }
  }

  /** Falling back to an older position. */
  lemma ReflectsRestart(numbers: set<u32>, log: seq<Op>, last: nat, high: nat, position: nat, high': nat)
    requires Reflects(numbers, log, last, high) && position <= last && high' == Max(high, last)
    ensures Reflects(numbers, log, position, high')
  {
    forall v | Touches(log[last..Max(last, high)], v) ensures Touches(log[position..high'], v) {
      TouchesWider(log, last, Max(last, high), position, high', v);
    }
    forall v | Touches(log[position..last], v) ensures Touches(log[position..high'], v) {
      TouchesWider(log, position, last, position, high', v);
    }
    forall v | !Touches(log[position..high'], v) ensures v in numbers <==> v in Fold({}, log[..position]) {
      assert log[..last] == log[..position] + log[position..last];
      FoldAppend({}, log[..position], log[position..last]);
      FoldLast(Fold({}, log[..position]), {}, log[position..last], v);
    }
  }

  /** A longer log changes nothing for what is there already. */
  lemma GrowingLogKeepsNode(log: seq<Op>, log': seq<Op>, node: Node)
    requires NodeOk(log, node) && log <= log'
    ensures NodeOk(log', node)
  {
    var last, top := node.r.last, Max(node.r.last, node.high);
    assert log'[node.start..last] == log[node.start..last];
    assert log'[last..top] == log[last..top] && log'[..last] == log[..last];
  }

  lemma GrowingLogKeepsFrame(log: seq<Op>, log': seq<Op>, f: Frame)
    requires FrameOk(log, f) && log <= log'
    ensures FrameOk(log', f)
  {}

  /** Sender calls only ever append to the log. */
  lemma LogGrows(s: S.State, e: S.Event)
    ensures s.log <= S.Step(s, e).log
  {}

  lemma PolledFrameOk(s: S.State, now: u64, cap: nat)
    requires I.Inv(s) && S.Poll(s, now, cap).frame.Some?
    ensures FrameOk(s.log, S.Poll(s, now, cap).frame.value)
  {
    var i := Scheduling.PollServesFirstReady(s, now, cap);
  }

  lemma DataKeepsNode(log: seq<Op>, node: Node, f: Frame, cap: nat, callback: R.Callback)
    requires |log| <= MAX_U32 && NodeOk(log, node) && f.payload.Data? && Legal(f) && FrameOk(log, f)
    ensures NodeOk(log, AfterData(node, f, cap, callback))
  {
    R.ApplyIsAtomic(node.r, f, cap, callback);
    var e, last := R.HandleData(node.r, f, cap, callback), node.r.last;
    if e.ran {
      if callback == R.Succeeds {
        ReflectsApply(node.numbers, log, last, node.high);
        assert log[node.start..last + 1] == log[node.start..last] + [log[last]];
      } else if callback == R.FailsDirty {
        ReflectsDirty(node.numbers, log, last, node.high, if node.high > last then node.high else last + 1);
      }
    }
  }

  /** Replacing a node by a good one, with only good frames added to the network. */
  lemma SafeUpdate(s: System, rid: u16, node: Node, reply: Option<Frame>)
    requires Safe(s) && NodeOk(s.sender.log, node)
    requires reply.Some? ==> FrameOk(s.sender.log, reply.value)
    ensures Safe(s.(nodes := s.nodes[rid := node], net := Sent(s.net, reply)))
  {}

  lemma SafeDataTo(s: System, rid: u16, f: Frame, cap: nat, callback: R.Callback)
    requires Safe(s) && Enabled(s, DataTo(rid, f, cap, callback))
    ensures Safe(Step(s, DataTo(rid, f, cap, callback)))
  {
    var node := s.nodes[rid];
    DataKeepsNode(s.sender.log, node, f, cap, callback);
    R.AnswersTellPosition(node.r, f, cap, callback);
    SafeUpdate(s, rid, AfterData(node, f, cap, callback), R.HandleData(node.r, f, cap, callback).reply);
  }

  lemma SafeBeaconTo(s: System, rid: u16, f: Frame, cap: nat)
    requires Safe(s) && Enabled(s, BeaconTo(rid, f, cap))
    ensures Safe(Step(s, BeaconTo(rid, f, cap)))
  {
    var a := R.HandleBeacon(s.nodes[rid].r, f, cap);
    assert NodeOk(s.sender.log, s.nodes[rid]);
    SafeUpdate(s, rid, s.nodes[rid].(r := a.state), a.reply);
  }

  lemma SafeRestart(s: System, rid: u16, position: u32)
    requires Safe(s) && Enabled(s, Restart(rid, position))
    ensures Safe(Step(s, Restart(rid, position)))
  {
    var node := s.nodes[rid];
    ReflectsRestart(node.numbers, s.sender.log, node.r.last, node.high, position, AfterRestart(node, position).high);
    SafeUpdate(s, rid, AfterRestart(node, position), None);
  }

  lemma SafeToSender(s: System, f: Frame, now: u64)
    requires Safe(s)
    ensures Safe(s.(sender := S.HandleRx(s.sender, now, f).0))
  {
    I.RxInv(s.sender, now, f);
    assert S.HandleRx(s.sender, now, f).0.log == s.sender.log;
  }

  lemma SafeStep(s: System, e: Event)
    requires Safe(s)
    ensures Safe(Step(s, e))
  {
    if Enabled(s, e) {
      match e
      case Local(call) => SafeLocal(s, call);
      case SendBeacon(_) =>
      case ToSender(f, now) => SafeToSender(s, f, now);
      case DataTo(rid, f, cap, callback) => SafeDataTo(s, rid, f, cap, callback);
      case BeaconTo(rid, f, cap) => SafeBeaconTo(s, rid, f, cap);
      case Restart(rid, position) => SafeRestart(s, rid, position);
    }
  }

  lemma SafeLocal(s: System, call: S.Event)
    requires Safe(s) && Enabled(s, Local(call))
    ensures Safe(Step(s, Local(call)))
  {
    var log, t := s.sender.log, Step(s, Local(call));
    I.StepInv(s.sender, call);
    LogGrows(s.sender, call);
    forall rid | rid in s.nodes ensures NodeOk(t.sender.log, s.nodes[rid]) {
      GrowingLogKeepsNode(log, t.sender.log, s.nodes[rid]);
    }
    if call.PollEvent? && S.Poll(s.sender, call.now, call.cap).frame.Some? {
      PolledFrameOk(s.sender, call.now, call.cap);
    }
    forall f | f in t.net ensures FrameOk(t.sender.log, f) {
      GrowingLogKeepsFrame(log, t.sender.log, f);
    }
  }

  /** Nothing sent yet; every node stands at a position of the log that its set reflects. */
  ghost predicate Initial(s: System) {
    && I.Inv(s.sender) && s.net == {}
    && forall rid :: rid in s.nodes ==>
         var node := s.nodes[rid];
         node.start == node.r.last <= |s.sender.log| && node.applied == [] && node.high == 0 &&
         node.numbers == Fold({}, s.sender.log[..node.r.last])
  }

  /**
   Prefix consistency: in every reachable state, what a receiver applied since
   it started is exactly the sender's log from there to its position, in order
   and once each; and once it has passed every position its set may already
   have reflected, the set is exactly the fold of that log prefix.
   */
  lemma PrefixConsistency(s: System, es: seq<Event>, rid: u16)
    requires Initial(s) && rid in Run(Step, s, es).nodes
    ensures var t := Run(Step, s, es); var node, log := t.nodes[rid], t.sender.log;
            && node.start <= node.r.last <= |log|
            && node.applied == log[node.start..node.r.last]
            && (node.high <= node.r.last ==> node.numbers == Fold({}, log[..node.r.last]))
  {
    var any := (s: System, e: Event) => true;
    forall s, e | Safe(s) ensures Safe(Step(s, e)) {
      SafeStep(s, e);
    }
    AlwaysTrue(Step, any, s, es);
    var safe := s => Safe(s);
    RunPreserves(Step, safe, any, s, es);
    CaughtUp(Run(Step, s, es), rid);
  }

  lemma CaughtUp(t: System, rid: u16)
    requires Safe(t) && rid in t.nodes
    ensures var node, log := t.nodes[rid], t.sender.log;
            && node.start <= node.r.last <= |log|
            && node.applied == log[node.start..node.r.last]
            && (node.high <= node.r.last ==> node.numbers == Fold({}, log[..node.r.last]))
  {
    var node, log := t.nodes[rid], t.sender.log;
    assert NodeOk(log, node);
    if node.high <= node.r.last {
      assert log[node.r.last..Max(node.r.last, node.high)] == [];
    }
  }
}
