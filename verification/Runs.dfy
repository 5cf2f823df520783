/**
 Runs of a state machine.  A machine is an initial state and a total step function: an event that
 is not enabled in a state leaves that state alone, so every sequence of events is a run and a
 statement about all sequences of events is a statement about all interleavings.
 */
module Runs {

  /** The state reached from `init` by the events `es`. */
  ghost function After<S, E>(step: (S, E) -> S, init: S, es: seq<E>): S {
    if |es| == 0 then init else step(After(step, init, es[..|es| - 1]), es[|es| - 1])
  }

  /** Every event of the run obeys `rule` in the state in which it happens. */
  ghost predicate Abides<S, E>(step: (S, E) -> S, init: S, rule: (S, E) -> bool, es: seq<E>) {
    |es| == 0
    || (Abides(step, init, rule, es[..|es| - 1]) && rule(After(step, init, es[..|es| - 1]), es[|es| - 1]))
  }

  /** `rule` keeps `inv`: one step from a state satisfying `inv` reaches another. */
  ghost predicate Keeps<S(!new), E(!new)>(step: (S, E) -> S, rule: (S, E) -> bool, inv: S -> bool) {
    forall s, e {:trigger step(s, e)} :: inv(s) && rule(s, e) ==> inv(step(s, e))
  }

  /** Induction over runs: what holds initially and is kept by every step holds after every run. */
  lemma {:induction false} InvariantHolds<S(!new), E(!new)>(
      step: (S, E) -> S, init: S, rule: (S, E) -> bool, inv: S -> bool, es: seq<E>)
    requires inv(init)
    requires Keeps(step, rule, inv)
    requires Abides(step, init, rule, es)
    ensures inv(After(step, init, es))
  {
    if |es| > 0 {
      InvariantHolds(step, init, rule, inv, es[..|es| - 1]);
    }
  }

  /** A rule that every event obeys does not restrict the run. */
  lemma {:induction false} AnyRunAbides<S(!new), E(!new)>(step: (S, E) -> S, init: S, rule: (S, E) -> bool, es: seq<E>)
    requires forall s, e :: rule(s, e)
    ensures Abides(step, init, rule, es)
  {
    if |es| > 0 {
      AnyRunAbides(step, init, rule, es[..|es| - 1]);
    }
  }

  /** Running two lists of events one after the other is running their concatenation. */
  lemma {:induction false} AfterConcat<S, E>(step: (S, E) -> S, init: S, a: seq<E>, b: seq<E>)
    ensures After(step, init, a + b) == After(step, After(step, init, a), b)
  {
    if |b| == 0 {
      assert a + b == a;
    } else {
      assert (a + b)[..|a + b| - 1] == a + b[..|b| - 1];
      AfterConcat(step, init, a, b[..|b| - 1]);
    }
  }

  /** A run and one that goes on from where it ended are a run. */
  lemma {:induction false} Join<S(!new), E(!new)>(
      step: (S, E) -> S, init: S, rule: (S, E) -> bool, a: seq<E>, b: seq<E>)
    requires Abides(step, init, rule, a) && Abides(step, After(step, init, a), rule, b)
    ensures Abides(step, init, rule, a + b)
    ensures After(step, init, a + b) == After(step, After(step, init, a), b)
  {
    AfterConcat(step, init, a, b);
    if |b| == 0 {
      assert a + b == a;
    } else {
      var front := b[..|b| - 1];
      assert (a + b)[..|a + b| - 1] == a + front;
      Join(step, init, rule, a, front);
    }
  }

  /** A run that obeys a rule obeys every weaker rule. */
  lemma {:induction false} AbidesWeaker<S(!new), E(!new)>(
      step: (S, E) -> S, init: S, rule: (S, E) -> bool, weaker: (S, E) -> bool, es: seq<E>)
    requires Abides(step, init, rule, es)
    requires forall s, e :: rule(s, e) ==> weaker(s, e)
    ensures Abides(step, init, weaker, es)
  {
    if |es| > 0 {
      AbidesWeaker(step, init, rule, weaker, es[..|es| - 1]);
    }
  }

  /** One more event after a run. */
  lemma Extend<S, E>(step: (S, E) -> S, init: S, es: seq<E>, e: E)
    ensures After(step, init, es + [e]) == step(After(step, init, es), e)
  {
    assert (es + [e])[..|es + [e]| - 1] == es;
  }

  /** A run of one event. */
  lemma One<S, E>(step: (S, E) -> S, init: S, rule: (S, E) -> bool, e: E)
    requires rule(init, e)
    ensures After(step, init, [e]) == step(init, e)
    ensures Abides(step, init, rule, [e])
  {
    var es: seq<E> := [e];
    assert es[..|es| - 1] == [];
  }

  /** A run of two events. */
  lemma Two<S, E>(step: (S, E) -> S, init: S, rule: (S, E) -> bool, e: E, f: E)
    requires rule(init, e) && rule(step(init, e), f)
    ensures After(step, init, [e, f]) == step(step(init, e), f)
    ensures Abides(step, init, rule, [e, f])
  {
    var es: seq<E> := [e, f];
    assert es[..|es| - 1] == [e];
    One(step, init, rule, e);
  }

  /** Some run that keeps to the rule ends in `s`. */
  ghost predicate Reaches<S(!new), E(!new)>(step: (S, E) -> S, init: S, rule: (S, E) -> bool, s: S) {
    exists es: seq<E> :: Abides(step, init, rule, es) && After(step, init, es) == s
  }

  lemma ReachesStart<S(!new), E(!new)>(step: (S, E) -> S, init: S, rule: (S, E) -> bool)
    ensures Reaches(step, init, rule, init)
  {
    var es: seq<E> := [];
    assert Abides(step, init, rule, es) && After(step, init, es) == init;
  }

  lemma ReachesNext<S(!new), E(!new)>(step: (S, E) -> S, init: S, rule: (S, E) -> bool, s: S, e: E)
    requires Reaches(step, init, rule, s) && rule(s, e)
    ensures Reaches(step, init, rule, step(s, e))
  {
    var es: seq<E> :| Abides(step, init, rule, es) && After(step, init, es) == s;
    var more := es + [e];
    assert more[..|more| - 1] == es;
    assert Abides(step, init, rule, more) && After(step, init, more) == step(s, e);
  }

  /** Extends a run whose state is at hand by one event. */
  lemma Play<S, E>(step: (S, E) -> S, init: S, es: seq<E>, s: S, e: E) returns (es': seq<E>, s': S)
    requires After(step, init, es) == s
    ensures es' == es + [e] && s' == step(s, e) == After(step, init, es')
  {
    es', s' := es + [e], step(s, e);
    Extend(step, init, es, e);
  }
}
