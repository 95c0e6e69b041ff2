/** Runs of a state machine, and ways to reason about all of them at once. */
module Runs {

  function Run<S, E>(step: (S, E) -> S, s: S, es: seq<E>): S
    decreases |es|
  {
    if es == [] then s else Run(step, step(s, es[0]), es[1..])
  }

  /** How many events of the run satisfy `p` when they happen. */
  function Count<S, E>(step: (S, E) -> S, p: (S, E) -> bool, s: S, es: seq<E>): nat
    decreases |es|
  {
    if es == [] then 0 else (if p(s, es[0]) then 1 else 0) + Count(step, p, step(s, es[0]), es[1..])
  }

  /** Some event of the run satisfies `p` when it happens. */
  predicate Happens<S, E>(step: (S, E) -> S, p: (S, E) -> bool, s: S, es: seq<E>)
    decreases |es|
  {
    es != [] && (p(s, es[0]) || Happens(step, p, step(s, es[0]), es[1..]))
  }

  /** Every event satisfies `p` up to and including the first one that satisfies `q`. */
  predicate Until<S, E>(step: (S, E) -> S, p: (S, E) -> bool, q: (S, E) -> bool, s: S, es: seq<E>)
    decreases |es|
  {
    es == [] || (p(s, es[0]) && (q(s, es[0]) || Until(step, p, q, step(s, es[0]), es[1..])))
  }

  /** Every event satisfies `ok` when it happens. */
  predicate Always<S, E>(step: (S, E) -> S, ok: (S, E) -> bool, s: S, es: seq<E>)
    decreases |es|
  {
    es == [] || (ok(s, es[0]) && Always(step, ok, step(s, es[0]), es[1..]))
  }

  lemma {:induction false} AlwaysTrue<S(!new), E(!new)>(step: (S, E) -> S, ok: (S, E) -> bool, s: S, es: seq<E>)
    requires forall s, e :: ok(s, e)
    ensures Always(step, ok, s, es)
    decreases |es|
  {
    if es != [] {
      AlwaysTrue(step, ok, step(s, es[0]), es[1..]);
    }
  }

  ghost predicate Preserves<S(!new), E(!new)>(step: (S, E) -> S, inv: S -> bool, ok: (S, E) -> bool) {
    forall s, e :: inv(s) && ok(s, e) ==> inv(step(s, e))
  }

  lemma {:induction false} RunPreserves<S(!new), E(!new)>(
    step: (S, E) -> S, inv: S -> bool, ok: (S, E) -> bool, s: S, es: seq<E>)
    requires Preserves(step, inv, ok) && inv(s) && Always(step, ok, s, es)
    ensures inv(Run(step, s, es))
    decreases |es|
  {
    if es != [] {
      RunPreserves(step, inv, ok, step(s, es[0]), es[1..]);
    }
  }

  /** An event that no good state allows never happens. */
  lemma {:induction false} NeverHappens<S(!new), E(!new)>(
    step: (S, E) -> S, inv: S -> bool, ok: (S, E) -> bool, p: (S, E) -> bool, s: S, es: seq<E>)
    requires Preserves(step, inv, ok) && inv(s) && Always(step, ok, s, es)
    requires forall s, e :: inv(s) && ok(s, e) ==> !p(s, e)
    ensures !Happens(step, p, s, es)
    decreases |es|
  {
    if es != [] {
      NeverHappens(step, inv, ok, p, step(s, es[0]), es[1..]);
    }
  }

  /** `potential` pays one for each event in `pays` and receives at most `grant` from each in `refills`. */
  ghost predicate Amortizes<S(!new), E(!new)>(
    step: (S, E) -> S, inv: S -> bool, ok: (S, E) -> bool,
    potential: S -> int, pays: (S, E) -> bool, refills: (S, E) -> bool, grant: nat)
  {
    forall s, e :: inv(s) && ok(s, e) ==>
      potential(step(s, e)) + (if pays(s, e) then 1 else 0) <= potential(s) + (if refills(s, e) then grant else 0)
  }

  lemma Granted(a: nat, n: nat, grant: nat)
    requires a <= 1
    ensures (a + n) * grant == (if a == 1 then grant else 0) + n * grant
  {}

  lemma {:induction false} Amortized<S(!new), E(!new)>(
    step: (S, E) -> S, inv: S -> bool, ok: (S, E) -> bool,
    potential: S -> int, pays: (S, E) -> bool, refills: (S, E) -> bool, grant: nat, s: S, es: seq<E>)
    requires Preserves(step, inv, ok) && inv(s) && Always(step, ok, s, es)
    requires Amortizes(step, inv, ok, potential, pays, refills, grant)
    ensures Count(step, pays, s, es) + potential(Run(step, s, es)) <= potential(s) + Count(step, refills, s, es) * grant
    decreases |es|
  {
    if es != [] {
      var t := step(s, es[0]);
      Amortized(step, inv, ok, potential, pays, refills, grant, t, es[1..]);
      Granted(if refills(s, es[0]) then 1 else 0, Count(step, refills, t, es[1..]), grant);
    }
  }

  /** Until `hit`, each event in `ticks` lowers `wait` and no other raises it. */
  ghost predicate CountsDown<S(!new), E(!new)>(
    step: (S, E) -> S, inv: S -> bool, ok: (S, E) -> bool,
    wait: S -> nat, ready: (S, E) -> bool, ticks: (S, E) -> bool, hit: (S, E) -> bool)
  {
    forall s, e :: inv(s) && ok(s, e) && ready(s, e) && !hit(s, e) ==>
      wait(step(s, e)) + (if ticks(s, e) then 1 else 0) <= wait(s)
  }

  lemma {:induction false} Countdown<S(!new), E(!new)>(
    step: (S, E) -> S, inv: S -> bool, ok: (S, E) -> bool,
    wait: S -> nat, ready: (S, E) -> bool, ticks: (S, E) -> bool, hit: (S, E) -> bool, s: S, es: seq<E>)
    requires Preserves(step, inv, ok) && inv(s) && Always(step, ok, s, es)
    requires CountsDown(step, inv, ok, wait, ready, ticks, hit)
    requires Until(step, ready, hit, s, es) && Count(step, ticks, s, es) > wait(s)
    ensures Happens(step, hit, s, es)
    decreases |es|
  {
    if !hit(s, es[0]) {
      Countdown(step, inv, ok, wait, ready, ticks, hit, step(s, es[0]), es[1..]);
    }
  }

  /** Some run from `s` whose events all satisfy `ok` ends in `t`. */
  ghost predicate Reaches<S(!new), E(!new)>(step: (S, E) -> S, ok: (S, E) -> bool, s: S, t: S) {
    exists es: seq<E> :: Always(step, ok, s, es) && Run(step, s, es) == t
  }

  lemma ReachesSelf<S(!new), E(!new)>(step: (S, E) -> S, ok: (S, E) -> bool, s: S)
    ensures Reaches(step, ok, s, s)
  {
    var es: seq<E> := [];
    assert Always(step, ok, s, es) && Run(step, s, es) == s;
  }

  lemma {:induction false} RunLast<S(!new), E(!new)>(step: (S, E) -> S, ok: (S, E) -> bool, s: S, es: seq<E>, e: E)
    requires Always(step, ok, s, es) && ok(Run(step, s, es), e)
    ensures Always(step, ok, s, es + [e]) && Run(step, s, es + [e]) == step(Run(step, s, es), e)
    decreases |es|
  {
    if es == [] {
      assert [e][1..] == [] && [] + [e] == [e];
    } else {
      RunLast(step, ok, step(s, es[0]), es[1..], e);
      assert (es + [e])[0] == es[0] && (es + [e])[1..] == es[1..] + [e];
    }
  }

  lemma {:induction false} HappensLast<S(!new), E(!new)>(step: (S, E) -> S, p: (S, E) -> bool, s: S, es: seq<E>, e: E)
    requires p(Run(step, s, es), e)
    ensures Happens(step, p, s, es + [e])
    decreases |es|
  {
    if es != [] {
      HappensLast(step, p, step(s, es[0]), es[1..], e);
      assert (es + [e])[0] == es[0] && (es + [e])[1..] == es[1..] + [e];
    }
  }

  /** What implies an event that does not happen does not happen. */
  lemma {:induction false} HappensNot<S(!new), E(!new)>(
    step: (S, E) -> S, p: (S, E) -> bool, q: (S, E) -> bool, s: S, es: seq<E>)
    requires !Happens(step, p, s, es) && forall s, e :: q(s, e) ==> p(s, e)
    ensures !Happens(step, q, s, es)
    decreases |es|
  {
    if es != [] {
      HappensNot(step, p, q, step(s, es[0]), es[1..]);
    }
  }

  lemma ReachesNext<S(!new), E(!new)>(step: (S, E) -> S, ok: (S, E) -> bool, s: S, t: S, e: E)
    requires Reaches(step, ok, s, t) && ok(t, e)
    ensures Reaches(step, ok, s, step(t, e))
  {
    var es: seq<E> :| Always(step, ok, s, es) && Run(step, s, es) == t;
    RunLast(step, ok, s, es, e);
  }

  lemma {:induction false} RunsJoin<S(!new), E(!new)>(step: (S, E) -> S, ok: (S, E) -> bool, s: S, es: seq<E>, fs: seq<E>)
    requires Always(step, ok, s, es) && Always(step, ok, Run(step, s, es), fs)
    ensures Always(step, ok, s, es + fs) && Run(step, s, es + fs) == Run(step, Run(step, s, es), fs)
    decreases |es|
  {
    if es == [] {
      assert es + fs == fs;
    } else {
      RunsJoin(step, ok, step(s, es[0]), es[1..], fs);
      assert (es + fs)[0] == es[0] && (es + fs)[1..] == es[1..] + fs;
    }
  }

  lemma ReachesOn<S(!new), E(!new)>(step: (S, E) -> S, ok: (S, E) -> bool, s: S, t: S, u: S)
    requires Reaches(step, ok, s, t) && Reaches(step, ok, t, u)
    ensures Reaches(step, ok, s, u)
  {
    var es: seq<E> :| Always(step, ok, s, es) && Run(step, s, es) == t;
    var fs: seq<E> :| Always(step, ok, t, fs) && Run(step, t, fs) == u;
    RunsJoin(step, ok, s, es, fs);
  }

  /** `block`, `n` times over. */
  function Times<E>(block: seq<E>, n: nat): seq<E> {
    if n == 0 then [] else block + Times(block, n - 1)
  }

  lemma {:induction false} RunAppend<S, E>(step: (S, E) -> S, s: S, a: seq<E>, b: seq<E>)
    ensures Run(step, s, a + b) == Run(step, Run(step, s, a), b)
    decreases |a|
  {
    if a == [] {
      assert a + b == b;
    } else {
      RunAppend(step, step(s, a[0]), a[1..], b);
      assert (a + b)[0] == a[0] && (a + b)[1..] == a[1..] + b;
    }
  }

  lemma RunOne<S, E>(step: (S, E) -> S, s: S, e: E)
    ensures Run(step, s, [e]) == step(s, e)
  {
    assert [e][1..] == [];
  }

  lemma RunTwo<S, E>(step: (S, E) -> S, s: S, d: E, e: E)
    ensures Run(step, s, [d, e]) == step(step(s, d), e)
  {
    assert [d, e][1..] == [e];
    RunOne(step, step(s, d), e);
  }

  /** A block that takes a countdown on by one. */
  ghost predicate TakesOn<S(!new), E>(
    step: (S, E) -> S, block: seq<E>, left: (S, nat) -> bool, goal: S -> bool, s: S, n: nat)
  {
    left(s, n) && n > 0 ==> var t := Run(step, s, block); if n == 1 then goal(t) else left(t, n - 1)
  }

  /** It takes it to its end. */
  lemma {:induction false} TimesReach<S(!new), E>(
    step: (S, E) -> S, block: seq<E>, left: (S, nat) -> bool, goal: S -> bool, s: S, n: nat)
    requires n > 0 && left(s, n) && forall s, n :: TakesOn(step, block, left, goal, s, n)
    ensures goal(Run(step, s, Times(block, n)))
    decreases n
  {
    var t := Run(step, s, block);
    RunAppend(step, s, block, Times(block, n - 1));
    assert TakesOn(step, block, left, goal, s, n);
    if n > 1 {
      TimesReach(step, block, left, goal, t, n - 1);
    }
  }

  /** `next(n)`, `next(n - 1)`, down to `next(1)`. */
  function Descending<E>(next: nat -> E, n: nat): (es: seq<E>)
    ensures |es| == n
  {
    if n == 0 then [] else [next(n)] + Descending(next, n - 1)
  }

  lemma {:induction false} DescendingAt<E>(next: nat -> E, n: nat, k: nat)
    requires k < n
    ensures Descending(next, n)[k] == next(n - k)
  {
    if k > 0 {
      DescendingAt(next, n - 1, k - 1);
    }
  }

  /** `next(n)` takes a countdown on from `n`, being of the kind counted except at the end. */
  ghost predicate StepsDown<S(!new), E(!new)>(
    step: (S, E) -> S, next: nat -> E, left: (S, nat) -> bool, counted: (S, E) -> bool, goal: S -> bool, s: S, n: nat)
  {
    left(s, n) && n > 0 ==>
      var t := step(s, next(n));
      (counted(s, next(n)) <==> n > 1) && if n == 1 then goal(t) else left(t, n - 1)
  }

  lemma {:induction false} DescendingReach<S(!new), E(!new)>(
    step: (S, E) -> S, next: nat -> E, left: (S, nat) -> bool, counted: (S, E) -> bool, goal: S -> bool, s: S, n: nat)
    requires n > 0 && left(s, n) && forall s, n :: StepsDown(step, next, left, counted, goal, s, n)
    ensures goal(Run(step, s, Descending(next, n))) && Count(step, counted, s, Descending(next, n)) == n - 1
    decreases n
  {
    var t, es := step(s, next(n)), Descending(next, n);
    assert StepsDown(step, next, left, counted, goal, s, n);
    assert es[0] == next(n) && es[1..] == Descending(next, n - 1);
    if n > 1 {
      DescendingReach(step, next, left, counted, goal, t, n - 1);
    }
  }
}
