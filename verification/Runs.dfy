/** Runs of a step over a stream of draws: draw n is the n-th, from 1. */
module Runs {

  function Run<S>(step: (S, real) -> S, s: S, draws: nat -> real, n: nat): S {
    if n == 0 then s else step(Run(step, s, draws, n - 1), draws(n))
  }

  /** Every draw lies between 0 and 1, both included. */
  ghost predicate InRange(draws: nat -> real) {
    forall n: nat :: 0.0 <= draws(n) <= 1.0
  }

  ghost predicate Invariant<S(!new)>(step: (S, real) -> S, ok: S -> bool) {
    forall s, v | ok(s) && 0.0 <= v <= 1.0 :: ok(step(s, v))
  }

  lemma {:induction false} Keeps<S(!new)>(step: (S, real) -> S, s: S, draws: nat -> real, n: nat, ok: S -> bool)
    requires InRange(draws) && ok(s) && Invariant(step, ok)
    ensures ok(Run(step, s, draws, n))
  {
    if n > 0 {
      Keeps(step, s, draws, n - 1, ok);
    }
  }

  /** A state that no draw changes is never left. */
  lemma {:induction false} Stays<S(!new)>(step: (S, real) -> S, s: S, draws: nat -> real, n: nat, m: nat)
    requires n <= m && forall v :: step(Run(step, s, draws, n), v) == Run(step, s, draws, n)
    ensures Run(step, s, draws, m) == Run(step, s, draws, n)
  {
    if n < m {
      Stays(step, s, draws, n, m - 1);
    }
  }

  /** Only certain draws mark a state, and nothing takes the mark away. */
  ghost predicate Marking<S(!new)>(step: (S, real) -> S, ok: S -> bool, marked: S -> bool, marks: (S, real) -> bool) {
    forall s, v | ok(s) && 0.0 <= v <= 1.0 :: marked(step(s, v)) <==> marked(s) || marks(s, v)
  }

  ghost predicate MarkedBefore<S>(step: (S, real) -> S, s: S, draws: nat -> real, n: nat, marks: (S, real) -> bool) {
    exists i: nat | i < n :: marks(Run(step, s, draws, i), draws(i + 1))
  }

  /** The mark is there exactly after one of those draws. */
  lemma {:induction false} MarkedBy<S(!new)>(step: (S, real) -> S, s: S, draws: nat -> real, n: nat,
                                              ok: S -> bool, marked: S -> bool, marks: (S, real) -> bool)
    requires InRange(draws) && ok(s) && !marked(s) && Invariant(step, ok) && Marking(step, ok, marked, marks)
    ensures marked(Run(step, s, draws, n)) <==> MarkedBefore(step, s, draws, n, marks)
  {
    if n > 0 {
      var last := n - 1;
      MarkedBy(step, s, draws, last, ok, marked, marks);
      Keeps(step, s, draws, last, ok);
      assert marks(Run(step, s, draws, last), draws(last + 1)) <==> marks(Run(step, s, draws, last), draws(n));
    }
  }

  /** Every draw spends some of the budget, until the run halts. */
  ghost predicate Spending<S(!new)>(step: (S, real) -> S, ok: S -> bool, halted: S -> bool, budget: S -> int) {
    && (forall s, v | ok(s) && halted(s) :: step(s, v) == s)
    && forall s, v | ok(s) && 0.0 <= v <= 1.0 && !halted(s) :: budget(step(s, v)) < budget(s)
  }

  lemma {:induction false} Spends<S(!new)>(step: (S, real) -> S, s: S, draws: nat -> real, n: nat,
                                            ok: S -> bool, halted: S -> bool, budget: S -> int)
    requires InRange(draws) && ok(s) && Invariant(step, ok) && Spending(step, ok, halted, budget)
    ensures ok(Run(step, s, draws, n))
    ensures halted(Run(step, s, draws, n)) || budget(Run(step, s, draws, n)) + n <= budget(s)
  {
    if n > 0 {
      Spends(step, s, draws, n - 1, ok, halted, budget);
    }
  }

  /** One run read through another's eyes. */
  lemma {:induction false} Projects<S(!new), T>(step: (S, real) -> S, s: S, view: S -> T, step': (T, real) -> T,
                                                draws: nat -> real, n: nat)
    requires forall x: S, v: real :: view(step(x, v)) == step'(view(x), v)
    ensures view(Run(step, s, draws, n)) == Run(step', view(s), draws, n)
  {
    if n > 0 {
      Projects(step, s, view, step', draws, n - 1);
    }
  }

  lemma MarksProject<S(!new), T>(step: (S, real) -> S, s: S, view: S -> T, step': (T, real) -> T, draws: nat -> real, n: nat,
                                 marks: (S, real) -> bool, marks': (T, real) -> bool)
    requires forall x: S, v: real :: view(step(x, v)) == step'(view(x), v)
    requires forall x: S, v: real :: marks(x, v) <==> marks'(view(x), v)
    ensures MarkedBefore(step, s, draws, n, marks) <==> MarkedBefore(step', view(s), draws, n, marks')
  {
    forall i: nat ensures marks(Run(step, s, draws, i), draws(i + 1)) == marks'(Run(step', view(s), draws, i), draws(i + 1)) {
      Projects(step, s, view, step', draws, i);
      var x, v := Run(step, s, draws, i), draws(i + 1);
      assert marks(x, v) == marks'(view(x), v);
    }
  }
}
