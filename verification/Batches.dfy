/** Batches of removes and adds: which are legal, and what applying one does to the set. */
module Batches {
  import opened Words
  import opened OpFrames
  import opened Operations
  import opened UpdateFrames

  predicate Distinct(values: seq<u32>) {
    forall i, j :: 0 <= i < j < |values| ==> values[i] != values[j]
  }

  predicate Disjoint(removes: seq<u32>, adds: seq<u32>) {
    forall i, j :: 0 <= i < |removes| && 0 <= j < |adds| ==> removes[i] != adds[j]
  }

  predicate ValidBatch(removes: seq<u32>, adds: seq<u32>) {
    InRange(removes) && InRange(adds) && Distinct(removes) && Distinct(adds) && Disjoint(removes, adds)
  }

  predicate RepeatedLater(values: seq<u32>, i: nat)
    requires i < |values|
  {
    exists j :: i < j < |values| && values[j] == values[i]
  }

  /** The first error a left-to-right scan from index `i` meets. */
  function ListError(values: seq<u32>, i: nat): u16
    requires i <= |values|
    decreases |values| - i
  {
    if i == |values| then ERR_NONE
    else if values[i] > MAX_VALUE then ERR_INVALID_NUMBER
    else if RepeatedLater(values, i) then ERR_DUPLICATE_IN_BATCH
    else ListError(values, i + 1)
  }

  /** The verdict on a batch: removes first, then adds, then the two against each other. */
  function NumbersError(removes: seq<u32>, adds: seq<u32>): u16 {
    if ListError(removes, 0) != ERR_NONE then ListError(removes, 0)
    else if ListError(adds, 0) != ERR_NONE then ListError(adds, 0)
    else if !Disjoint(removes, adds) then ERR_NUMBER_IN_BOTH
    else ERR_NONE
  }

  lemma {:induction false} ListErrorNone(values: seq<u32>, i: nat)
    requires i <= |values|
    ensures ListError(values, i) == ERR_NONE <==>
              (forall k :: i <= k < |values| ==> values[k] <= MAX_VALUE) &&
              forall k, l :: i <= k < l < |values| ==> values[k] != values[l]
    decreases |values| - i
  {
    if i < |values| {
      ListErrorNone(values, i + 1);
    }
  }

  /** The scan accepts exactly the legal batches. */
  lemma AcceptsExactly(removes: seq<u32>, adds: seq<u32>)
    ensures NumbersError(removes, adds) == ERR_NONE <==> ValidBatch(removes, adds)
  {
    ListErrorNone(removes, 0);
    ListErrorNone(adds, 0);
  }

  method ValidateList(values: seq<u32>) returns (err: u16)
    ensures err == ListError(values, 0)
  {
    for i := 0 to |values|
      invariant ListError(values, i) == ListError(values, 0)
    {
      if values[i] > MAX_VALUE {
        return ERR_INVALID_NUMBER;
      }
      for j := i + 1 to |values|
        invariant forall l :: i < l < j ==> values[l] != values[i]
      {
        if values[i] == values[j] {
          return ERR_DUPLICATE_IN_BATCH;
        }
      }
    }
    return ERR_NONE;
  }

  /** validate_update_numbers. */
  method ValidateNumbers(removes: seq<u32>, adds: seq<u32>) returns (ok: bool, err: u16)
    ensures err == NumbersError(removes, adds)
    ensures ok <==> err == ERR_NONE
    ensures ok <==> ValidBatch(removes, adds)
  {
    AcceptsExactly(removes, adds);
    err := ValidateList(removes);
    if err != ERR_NONE {
      return false, err;
    }
    err := ValidateList(adds);
    if err != ERR_NONE {
      return false, err;
    }
    for i := 0 to |removes|
      invariant forall k, l :: 0 <= k < i && 0 <= l < |adds| ==> removes[k] != adds[l]
    {
      for j := 0 to |adds|
        invariant forall l :: 0 <= l < j ==> removes[i] != adds[l]
      {
        if removes[i] == adds[j] {
          return false, ERR_NUMBER_IN_BOTH;
        }
      }
    }
    return true, ERR_NONE;
  }

  // ---------- Applying a batch ----------

  /** The engine calls of a batch, in the order the bridge makes them. */
  function Calls(u: Update): seq<Op> {
    Ops(u.removes, u.adds)
  }

  function Elements(values: seq<u32>): set<u32> {
    set i | 0 <= i < |values| :: values[i]
  }

  lemma {:induction false} RemovesFold(numbers: set<u32>, values: seq<u32>)
    ensures Fold(numbers, Each(REMOVE, values)) == numbers - Elements(values)
  {
    if values != [] {
      var n := |values| - 1;
      EachAt(REMOVE, values, n);
      RemovesFold(numbers, values[..n]);
      ElementsLast(values);
      assert Each(REMOVE, values)[..n] == Each(REMOVE, values[..n]);
    }
  }

  lemma {:induction false} AddsFold(numbers: set<u32>, values: seq<u32>)
    ensures Fold(numbers, Each(ADD, values)) == numbers + Elements(values)
  {
    if values != [] {
      var n := |values| - 1;
      EachAt(ADD, values, n);
      AddsFold(numbers, values[..n]);
      ElementsLast(values);
      assert Each(ADD, values)[..n] == Each(ADD, values[..n]);
    }
  }

  lemma ElementsLast(values: seq<u32>)
    requires values != []
    ensures Elements(values) == Elements(values[..|values| - 1]) + {values[|values| - 1]}
  {
    var n := |values| - 1;
    forall v ensures v in Elements(values) <==> v in Elements(values[..n]) + {values[n]} {
      if v in Elements(values) {
        var i :| 0 <= i < |values| && values[i] == v;
        assert i < n ==> values[..n][i] == v;
      }
      if v in Elements(values[..n]) {
        var i :| 0 <= i < n && values[..n][i] == v;
        assert values[i] == v;
      }
      assert values[n] in Elements(values);
    }
  }

  /** A complete batch takes the removes out and puts the adds in; for a legal batch the phases may be swapped. */
  lemma BatchMeaning(numbers: set<u32>, u: Update)
    ensures Fold(numbers, Calls(u)) == (numbers - Elements(u.removes)) + Elements(u.adds)
    ensures Disjoint(u.removes, u.adds) ==>
              Fold(numbers, Calls(u)) == (numbers + Elements(u.adds)) - Elements(u.removes)
  {
    FoldAppend(numbers, Each(REMOVE, u.removes), Each(ADD, u.adds));
    RemovesFold(numbers, u.removes);
    AddsFold(numbers - Elements(u.removes), u.adds);
    if Disjoint(u.removes, u.adds) {
      assert Elements(u.removes) !! Elements(u.adds);
    }
  }

  /** Every number in the calls occurs once. */
  predicate DistinctCalls(calls: seq<Op>) {
    forall i, j :: 0 <= i < j < |calls| ==> calls[i].value != calls[j].value
  }

  lemma LegalCallsDistinct(u: Update)
    requires ValidBatch(u.removes, u.adds)
    ensures DistinctCalls(Calls(u))
  {
    forall i, j | 0 <= i < j < |Calls(u)| ensures Calls(u)[i].value != Calls(u)[j].value {
      CallAt(u, i);
      CallAt(u, j);
    }
  }

  lemma CallAt(u: Update, i: nat)
    requires i < |Calls(u)|
    ensures Calls(u)[i] == if i < |u.removes| then Op(REMOVE, u.removes[i]) else Op(ADD, u.adds[i - |u.removes|])
  {
    if i < |u.removes| {
      EachAt(REMOVE, u.removes, i);
    } else {
      EachAt(ADD, u.adds, i - |u.removes|);
    }
  }

  /** What calls on distinct numbers do to each number. */
  lemma {:induction false} DistinctFold(numbers: set<u32>, calls: seq<Op>, i: nat)
    requires DistinctCalls(calls) && i < |calls|
    ensures calls[i].value in Fold(numbers, calls) <==> calls[i].opType == ADD
  {
    var n := |calls| - 1;
    if i < n {
      DistinctFold(numbers, calls[..n], i);
      assert calls[n].value != calls[i].value;
    }
  }

  /** A call that changes nothing: an add of a number in the set, or a remove of one that is not. */
  predicate Redundant(numbers: set<u32>, op: Op) {
    op.opType == ADD <==> op.value in numbers
  }

  /**
   A batch cut short and then given up for another one leaves no trace exactly
   when each of its calls that took effect is on a number of the other batch
   or was redundant to begin with.
   */
  lemma AbandonedBatch(numbers: set<u32>, first: Update, k: nat, u: Update)
    requires ValidBatch(first.removes, first.adds) && k <= |Calls(first)|
    ensures Fold(Fold(numbers, Calls(first)[..k]), Calls(u)) == Fold(numbers, Calls(u)) <==>
              forall i :: 0 <= i < k ==> Touches(Calls(u), Calls(first)[i].value) || Redundant(numbers, Calls(first)[i])
  {
    LegalCallsDistinct(first);
    AbandonedCalls(numbers, Calls(first)[..k], Calls(u));
    forall i | 0 <= i < k ensures Calls(first)[..k][i] == Calls(first)[i] {
    }
  }

  lemma AbandonedCalls(numbers: set<u32>, part: seq<Op>, calls: seq<Op>)
    requires DistinctCalls(part)
    ensures Fold(Fold(numbers, part), calls) == Fold(numbers, calls) <==>
              forall i :: 0 <= i < |part| ==> Touches(calls, part[i].value) || Redundant(numbers, part[i])
  {
    var dirty := Fold(numbers, part);
    forall v
      ensures Touches(calls, v) ==> (v in Fold(dirty, calls) <==> v in Fold(numbers, calls))
      ensures !Touches(calls, v) ==> (v in Fold(dirty, calls) <==> v in dirty) && (v in Fold(numbers, calls) <==>
              v in numbers)
      ensures !Touches(part, v) ==> (v in dirty <==> v in numbers)
    {
      FoldLast(dirty, numbers, calls, v);
      FoldLast(numbers, numbers, calls, v);
      FoldLast(numbers, numbers, part, v);
    }
    forall i | 0 <= i < |part| ensures part[i].value in dirty <==> part[i].opType == ADD {
      DistinctFold(numbers, part, i);
    }
    if Fold(dirty, calls) == Fold(numbers, calls) {
      forall i | 0 <= i < |part| ensures Touches(calls, part[i].value) || Redundant(numbers, part[i]) {
        var v := part[i].value;
        assert v in Fold(dirty, calls) <==> v in Fold(numbers, calls);
      }
    }
  }

  /** The set after attempts that each stopped after some number of calls. */
  function Attempts(numbers: set<u32>, u: Update, stops: seq<nat>): set<u32> {
    if stops == [] then numbers
    else
      var before := Attempts(numbers, u, stops[..|stops| - 1]);
      var stop := stops[|stops| - 1];
      Fold(before, Calls(u)[..if stop <= |Calls(u)| then stop else |Calls(u)|])
  }

  /** However often and wherever a batch was cut short, completing it gives the same set as completing it at once. */
  lemma {:induction false} RetriesComplete(numbers: set<u32>, u: Update, stops: seq<nat>)
    ensures Fold(Attempts(numbers, u, stops), Calls(u)) == Fold(numbers, Calls(u))
  {
    var calls := Calls(u);
    if stops != [] {
      var front := stops[..|stops| - 1];
      var stop := stops[|stops| - 1];
      var k := if stop <= |calls| then stop else |calls|;
      RetriesComplete(numbers, u, front);
      RestartReplay(Attempts(numbers, u, front), calls, 0, k, |calls|);
      assert calls[0..|calls|] == calls && calls[..|calls|] == calls;
    }
  }

  /** The engine a batch is applied to: `failAt` is the call, counted from the first remove, that fails. */
  class Engine {
    var numbers: set<u32>

    /** One call; when it is the failing one, `dirty` says whether its change was made all the same. */
    method Perform(op: Op, fails: bool, dirty: bool) returns (ok: bool)
      modifies this
      ensures ok == !fails
      ensures numbers == if fails && !dirty then old(numbers) else Apply(old(numbers), op)
    {
      if !fails || dirty {
        numbers := if op.opType == ADD then numbers + {op.value} else numbers - {op.value};
      }
      return !fails;
    }

    /** One of the two loops of apply_update_to_num8. */
    method PerformEach(opType: u8, values: seq<u32>, failAt: int, dirty: bool) returns (ok: bool, ghost done: nat)
      modifies this
      ensures ok == !(0 <= failAt < |values|)
      ensures done <= |values| && numbers == Fold(old(numbers), Each(opType, values)[..done])
      ensures if ok then done == |values| else failAt <= done <= failAt + 1
    {
      ghost var calls := Each(opType, values);
      done := 0;
      for i := 0 to |values|
        invariant !(0 <= failAt < i) && done == i && numbers == Fold(old(numbers), calls[..i])
      {
        EachAt(opType, values, i);
        assert calls[..i + 1][..i] == calls[..i];
        ok := Perform(Op(opType, values[i]), failAt == i, dirty);
        if !ok {
          done := if dirty then i + 1 else i;
          return;
        }
        done := i + 1;
      }
      ok := true;
    }

    /** apply_update_to_num8 once its checks have passed: removes, adds, flush. The flush is call |removes| + |adds|. */
    method ApplyBatch(u: Update, failAt: nat, dirty: bool) returns (ok: bool)
      modifies this
      ensures ok == (failAt > |Calls(u)|)
      ensures ok ==> numbers == Fold(old(numbers), Calls(u))
      ensures !ok ==>
                exists k :: failAt <= k <= failAt + 1 && k <= |Calls(u)| && numbers == Fold(old(numbers), Calls(u)[..k])
    {
      ghost var before, calls, removes, adds := numbers, Calls(u), Each(REMOVE, u.removes), Each(ADD, u.adds);
      ghost var done;
      ok, done := PerformEach(REMOVE, u.removes, failAt, dirty);
      assert calls[..done] == removes[..done];
      if !ok {
        return;
      }
      assert removes[..done] == removes;
      ok, done := PerformEach(ADD, u.adds, failAt - |u.removes|, dirty);
      FoldAppend(before, removes, adds[..done]);
      assert calls[..|removes| + done] == removes + adds[..done];
      if !ok {
        return;
      }
      assert calls[..|calls|] == calls;
      return failAt != |u.removes| + |u.adds|;
    }
  }
}
