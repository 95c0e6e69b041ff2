/**
 Every engine call of a run, of completed batches and of interrupted ones, and
 exactly when the interrupted ones have left a trace.
 */
module LegacyTraces {
  import opened Words
  import opened OpFrames
  import opened Operations
  import opened Runs
  import opened UpdateFrames
  import opened Batches
  import opened LegacyModel
  import opened LegacyChain

  /** A call that took effect; `kept` if its batch was completed in the same attempt. */
  datatype Call = Call(op: Op, kept: bool)

  function AllOps(trace: seq<Call>): seq<Op> {
    if trace == [] then [] else AllOps(trace[..|trace| - 1]) + [trace[|trace| - 1].op]
  }

  function KeptOps(trace: seq<Call>): seq<Op> {
    if trace == [] then []
    else
      var last := trace[|trace| - 1];
      KeptOps(trace[..|trace| - 1]) + if last.kept then [last.op] else []
  }

  /** Call `p` belongs to an interrupted attempt, and no later call is on its number. */
  predicate Exposed(trace: seq<Call>, p: nat) {
    p < |trace| && !trace[p].kept && forall q :: p < q < |trace| ==> trace[q].op.value != trace[p].op.value
  }

  lemma FoldNext(start: set<u32>, ops: seq<Op>, op: Op)
    ensures Fold(start, ops + [op]) == Apply(Fold(start, ops), op)
  {
    assert (ops + [op])[..|ops|] == ops;
  }

  /** One more call. */
  lemma TraceNext(start: set<u32>, trace: seq<Call>)
    requires trace != []
    ensures var front, last := trace[..|trace| - 1], trace[|trace| - 1];
            && Fold(start, AllOps(trace)) == Apply(Fold(start, AllOps(front)), last.op)
            && Fold(start, KeptOps(trace))
               == if last.kept then Apply(Fold(start, KeptOps(front)), last.op) else Fold(start, KeptOps(front))
  {
    var front, last := trace[..|trace| - 1], trace[|trace| - 1];
    FoldNext(start, AllOps(front), last.op);
    FoldNext(start, KeptOps(front), last.op);
    assert KeptOps(front) + [] == KeptOps(front);
  }

  /** The last call on a number decides about it, among all calls and among the kept ones. */
  lemma {:induction false} LastOn(start: set<u32>, trace: seq<Call>, v: u32) returns (p: int)
    ensures -1 <= p < |trace| && forall q :: p < q < |trace| ==> trace[q].op.value != v
    ensures p == -1 ==>
              && (v in Fold(start, AllOps(trace)) <==> v in start)
              && (v in Fold(start, KeptOps(trace)) <==> v in start)
    ensures p >= 0 ==>
              && trace[p].op.value == v
              && (v in Fold(start, AllOps(trace)) <==> trace[p].op.opType == ADD)
              && (trace[p].kept ==> (v in Fold(start, KeptOps(trace)) <==> trace[p].op.opType == ADD))
  {
    if trace == [] {
      p := -1;
    } else {
      var n := |trace| - 1;
      TraceNext(start, trace);
      if trace[n].op.value == v {
        p := n;
      } else {
        p := LastOn(start, trace[..n], v);
        assert p >= 0 ==> trace[p] == trace[..n][p];
      }
    }
  }

  /**
   The set all calls leave is the one the completed batches alone would leave
   exactly when each exposed call changes nothing on the latter.
   */
  lemma NoTraceExactly(start: set<u32>, trace: seq<Call>)
    ensures Fold(start, AllOps(trace)) == Fold(start, KeptOps(trace)) <==>
              forall p: nat :: Exposed(trace, p) ==> Redundant(Fold(start, KeptOps(trace)), trace[p].op)
  {
    var all, kept := Fold(start, AllOps(trace)), Fold(start, KeptOps(trace));
    if all == kept {
      forall p: nat | Exposed(trace, p) ensures Redundant(kept, trace[p].op) {
        var q := LastOn(start, trace, trace[p].op.value);
      }
    }
    if forall p: nat :: Exposed(trace, p) ==> Redundant(kept, trace[p].op) {
      forall v ensures v in all <==> v in kept {
        var p := LastOn(start, trace, v);
        if p >= 0 && !trace[p].kept {
          assert Exposed(trace, p);
        }
      }
    }
  }

  // ---------- Traces of runs ----------

  function Marked(ops: seq<Op>, kept: bool): seq<Call> {
    seq(|ops|, i requires 0 <= i < |ops| => Call(ops[i], kept))
  }

  lemma {:induction false} MarkedOps(ops: seq<Op>, kept: bool)
    ensures AllOps(Marked(ops, kept)) == ops && KeptOps(Marked(ops, kept)) == if kept then ops else []
  {
    if ops != [] {
      var n := |ops| - 1;
      MarkedOps(ops[..n], kept);
      assert Marked(ops, kept)[..n] == Marked(ops[..n], kept);
    }
  }

  lemma {:induction false} OpsAppend(a: seq<Call>, b: seq<Call>)
    ensures AllOps(a + b) == AllOps(a) + AllOps(b) && KeptOps(a + b) == KeptOps(a) + KeptOps(b)
  {
    if b == [] {
      assert a + b == a;
    } else {
      var n := |b| - 1;
      OpsAppend(a, b[..n]);
      assert (a + b)[..|a + b| - 1] == a + b[..n];
    }
  }

  /** The calls of an attempt that took effect. */
  function Attempted(u: Update, outcome: Outcome): seq<Call> {
    match outcome
    case Completes => Marked(Calls(u), true)
    case Stops(after) => Marked(Calls(u)[..if after <= |Calls(u)| then after else |Calls(u)|], false)
  }

  function Called(s: System, e: Event): seq<Call> {
    if e.BatchIn? && Enabled(s, e) && HandleBatch(s.receiver, e.m, e.cap, e.outcome.Completes?).tried
    then Attempted(e.m.content.u, e.outcome) else []
  }

  function Trace(s: System, es: seq<Event>): seq<Call>
    decreases |es|
  {
    if es == [] then [] else Called(s, es[0]) + Trace(Step(s, es[0]), es[1..])
  }

  lemma AttemptCalls(s: System, u: Update, outcome: Outcome, start: set<u32>)
    ensures var t, calls := Attempt(s, u, outcome), Attempted(u, outcome);
            && t.numbers == Fold(s.numbers, AllOps(calls))
            && FoldBatches(start, t.done) == Fold(FoldBatches(start, s.done), KeptOps(calls))
  {
    match outcome
    case Completes =>
      MarkedOps(Calls(u), true);
      assert (s.done + [u])[..|s.done|] == s.done;
    case Stops(after) =>
      MarkedOps(Calls(u)[..if after <= |Calls(u)| then after else |Calls(u)|], false);
  }

  lemma StepCalls(s: System, e: Event, start: set<u32>)
    ensures var t, calls := Step(s, e), Called(s, e);
            && t.numbers == Fold(s.numbers, AllOps(calls))
            && FoldBatches(start, t.done) == Fold(FoldBatches(start, s.done), KeptOps(calls))
  {
    if Called(s, e) != [] || (e.BatchIn? && Enabled(s, e)) {
      var r := HandleBatch(s.receiver, e.m, e.cap, e.outcome.Completes?);
      AttemptCalls(s.(receiver := r.state, net := Put(s.net, r.out)), e.m.content.u, e.outcome, start);
    }
  }

  lemma {:induction false} RunCalls(s: System, es: seq<Event>, start: set<u32>)
    ensures var t, calls := Run(Step, s, es), Trace(s, es);
            && t.numbers == Fold(s.numbers, AllOps(calls))
            && FoldBatches(start, t.done) == Fold(FoldBatches(start, s.done), KeptOps(calls))
    decreases |es|
  {
    if es != [] {
      var first, rest := Called(s, es[0]), Trace(Step(s, es[0]), es[1..]);
      StepCalls(s, es[0], start);
      RunCalls(Step(s, es[0]), es[1..], start);
      OpsAppend(first, rest);
      FoldAppend(s.numbers, AllOps(first), AllOps(rest));
      FoldAppend(FoldBatches(start, s.done), KeptOps(first), KeptOps(rest));
    }
  }

  /**
   After any run, with any number of interrupted and abandoned batches, the
   engine's set is the fold of the version chain if and only if each call of an
   interrupted attempt that no later call covers changes nothing on that fold.
   */
  lemma SetIsChainFoldExactly(s: System, es: seq<Event>)
    requires s.done == []
    ensures var t, calls := Run(Step, s, es), Trace(s, es);
            t.numbers == FoldBatches(s.numbers, t.done) <==>
              forall p: nat :: Exposed(calls, p) ==> Redundant(FoldBatches(s.numbers, t.done), calls[p].op)
  {
    RunCalls(s, es, s.numbers);
    NoTraceExactly(s.numbers, Trace(s, es));
  }
}
