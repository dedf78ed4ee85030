/** Runs of a step system: `step` says what an event does to a state, or that it cannot happen. */
module Runs {
  import opened Prelude

  function From<S, E>(step: (S, E) -> Option<S>, s: S, events: seq<E>): Option<S>
    decreases |events|
  {
    if events == [] then Some(s)
    else match step(s, events[0])
      case None => None
      case Some(s') => From(step, s', events[1..])
  }

  lemma FirstEvent<S, E>(step: (S, E) -> Option<S>, s: S, e: E, rest: seq<E>)
    requires step(s, e).Some?
    ensures From(step, s, [e] + rest) == From(step, step(s, e).value, rest)
  {
    assert ([e] + rest)[1..] == rest;
  }

  lemma {:induction false} Append<S, E>(step: (S, E) -> Option<S>, s: S, a: seq<E>, b: seq<E>)
    requires From(step, s, a).Some?
    ensures From(step, s, a + b) == From(step, From(step, s, a).value, b)
    decreases |a|
  {
    if a == [] {
      assert a + b == b;
    } else {
      assert (a + b)[1..] == a[1..] + b;
      Append(step, step(s, a[0]).value, a[1..], b);
    }
  }

  lemma {:induction false} HasPrefix<S, E>(step: (S, E) -> Option<S>, s: S, a: seq<E>, b: seq<E>)
    requires From(step, s, a + b).Some?
    ensures From(step, s, a).Some?
    decreases |a|
  {
    if a != [] {
      assert (a + b)[1..] == a[1..] + b;
      HasPrefix(step, step(s, a[0]).value, a[1..], b);
    }
  }

  lemma LastEvent<S, E>(step: (S, E) -> Option<S>, s: S, events: seq<E>, e: E)
    requires From(step, s, events).Some?
    ensures From(step, s, events + [e]) == step(From(step, s, events).value, e)
  {
    Append(step, s, events, [e]);
    assert [e][1..] == [];
  }

  /** What every step keeps holds at the end of every run. */
  lemma {:induction false} Keeps<S(!new), E(!new)>(step: (S, E) -> Option<S>, inv: S -> bool, s: S, events: seq<E>)
    requires forall t, e :: inv(t) && step(t, e).Some? ==> inv(step(t, e).value)
    requires inv(s) && From(step, s, events).Some?
    ensures inv(From(step, s, events).value)
    decreases |events|
  {
    if events != [] {
      Keeps(step, inv, step(s, events[0]).value, events[1..]);
    }
  }
}
