/** Single ADD/REMOVE operations, and the set of numbers a log of them builds. */
module Operations {
  import opened Words
  import opened OpFrames

  datatype Op = Op(opType: u8, value: u32)

  predicate ValidOp(op: Op) {
    (op.opType == ADD || op.opType == REMOVE) && op.value <= MAX_VALUE
  }

  // ---------- Lists as operations ----------

  function Each(opType: u8, values: seq<u32>): (ops: seq<Op>)
    ensures |ops| == |values|
  {
    if values == [] then [] else Each(opType, values[..|values| - 1]) + [Op(opType, values[|values| - 1])]
  }

  lemma {:induction false} EachAt(opType: u8, values: seq<u32>, i: nat)
    requires i < |values|
    ensures Each(opType, values)[i] == Op(opType, values[i])
    ensures Each(opType, values[..i + 1]) == Each(opType, values[..i]) + [Op(opType, values[i])]
  {
    assert values[..i + 1][..i] == values[..i];
    if i < |values| - 1 {
      var front := values[..|values| - 1];
      EachAt(opType, front, i);
      assert front[i] == values[i];
    }
  }

  function Ops(removes: seq<u32>, adds: seq<u32>): (ops: seq<Op>)
    ensures |ops| == |removes| + |adds|
  {
    Each(REMOVE, removes) + Each(ADD, adds)
  }

  predicate InRange(values: seq<u32>) {
    forall i :: 0 <= i < |values| ==> values[i] <= MAX_VALUE
  }

  // ---------- Folding ----------

  /** What num8_add_u32 or num8_remove_u32 does to the set the engine stands for. */
  function Apply(numbers: set<u32>, op: Op): set<u32> {
    if op.opType == ADD then numbers + {op.value} else numbers - {op.value}
  }

  /** The set after applying all of `log` in order. */
  function Fold(numbers: set<u32>, log: seq<Op>): set<u32> {
    if log == [] then numbers else Apply(Fold(numbers, log[..|log| - 1]), log[|log| - 1])
  }

  lemma {:induction false} FoldAppend(numbers: set<u32>, a: seq<Op>, b: seq<Op>)
    ensures Fold(numbers, a + b) == Fold(Fold(numbers, a), b)
  {
    if b == [] {
      assert a + b == a;
    } else {
      FoldAppend(numbers, a, b[..|b| - 1]);
      assert (a + b)[..|a + b| - 1] == a + b[..|b| - 1];
    }
  }

  predicate Touches(log: seq<Op>, v: u32) {
    exists i :: 0 <= i < |log| && log[i].value == v
  }

  /** The last operation on a value decides; operations on other values do not matter. */
  lemma {:induction false} FoldLast(a: set<u32>, b: set<u32>, log: seq<Op>, v: u32)
    ensures Touches(log, v) ==> (v in Fold(a, log) <==> v in Fold(b, log))
    ensures !Touches(log, v) ==> (v in Fold(a, log) <==> v in a)
  {
    if log != [] {
      var n := |log| - 1;
      FoldLast(a, b, log[..n], v);
      if log[n].value != v {
        assert Touches(log, v) ==> Touches(log[..n], v) by {
          if Touches(log, v) {
            var i :| 0 <= i < |log| && log[i].value == v;
            assert log[..n][i] == log[i];
          }
        }
        assert Touches(log[..n], v) ==> Touches(log, v) by {
          if Touches(log[..n], v) {
            var i :| 0 <= i < n && log[..n][i].value == v;
            assert log[i].value == v;
          }
        }
      }
    }
  }

  /**
   Restart replay: a set that reflects the first `k` operations, taken through
   operations j+1..m again for some j <= k <= m, ends as one in-order run of
   the first `m` operations.
   */
  lemma RestartReplay(numbers: set<u32>, log: seq<Op>, j: nat, k: nat, m: nat)
    requires j <= k <= m <= |log|
    ensures Fold(Fold(numbers, log[..k]), log[j..m]) == Fold(numbers, log[..m])
  {
    var seen, again := Fold(numbers, log[..k]), log[j..m];
    assert log[..m] == log[..j] + again && log[..k] == log[..j] + log[j..k];
    FoldAppend(numbers, log[..j], again);
    FoldAppend(numbers, log[..j], log[j..k]);
    var base := Fold(numbers, log[..j]);
    forall v ensures v in Fold(seen, again) <==> v in Fold(base, again) {
      FoldLast(seen, base, again, v);
      FoldLast(base, base, again, v);
      FoldLast(base, base, log[j..k], v);
      if Touches(log[j..k], v) {
        var i :| 0 <= i < k - j && log[j..k][i].value == v;
        assert again[i].value == v;
      }
    }
  }

  /**
   A replay that may stop short of what the set reflects ends as the in-order
   run exactly when no number outside the replayed operations changed between
   the checkpoint `j` and the reflected position `k`.
   */
  lemma ReplayExactly(numbers: set<u32>, log: seq<Op>, j: nat, k: nat, m: nat)
    requires j <= k <= |log| && j <= m <= |log|
    ensures Fold(Fold(numbers, log[..k]), log[j..m]) == Fold(numbers, log[..m]) <==>
              forall v :: !Touches(log[j..m], v) ==> (v in Fold(numbers, log[..k]) <==> v in Fold(numbers, log[..j]))
  {
    var seen, base, again := Fold(numbers, log[..k]), Fold(numbers, log[..j]), log[j..m];
    assert log[..m] == log[..j] + again;
    FoldAppend(numbers, log[..j], again);
    forall v
      ensures Touches(again, v) ==> (v in Fold(seen, again) <==> v in Fold(base, again))
      ensures !Touches(again, v) ==> (v in Fold(seen, again) <==> v in seen) && (v in Fold(base, again) <==> v in base)
    {
      FoldLast(seen, base, again, v);
      FoldLast(base, base, again, v);
    }
  }

  /** Replaying short of what the set already reflects may leave a later change in it. */
  lemma ReplayMustCatchUp()
    ensures exists log: seq<Op>, j: nat, k: nat, m: nat ::
              j <= m < k <= |log| && Fold(Fold({}, log[..k]), log[j..m]) != Fold({}, log[..m])
  {
    var log := [Op(ADD, 7)];
    assert log[..1] == log && log[0..0] == [] && log[..0] == [];
    assert Fold({}, log) == {7};
    assert Fold(Fold({}, log[..1]), log[0..0]) != Fold({}, log[..0]);
  }
}
