/**
 Runs of an action system. An action that is not enabled leaves the state as it
 is, so that every list of actions is a run.
 */
module Runs {

  function After<S, A>(step: (S, A) -> S, s: S, actions: seq<A>): S
    decreases |actions|
  {
    if actions == [] then s else After(step, step(s, actions[0]), actions[1..])
  }

  lemma Cons<S, A>(step: (S, A) -> S, s: S, a: A, rest: seq<A>)
    ensures After(step, s, [a] + rest) == After(step, step(s, a), rest)
  {
    assert ([a] + rest)[1..] == rest;
  }

  lemma {:induction false} Append<S, A>(step: (S, A) -> S, s: S, first: seq<A>, second: seq<A>)
    ensures After(step, s, first + second) == After(step, After(step, s, first), second)
    decreases |first|
  {
    if first == [] {
      assert first + second == second;
    } else {
      assert (first + second)[1..] == first[1..] + second;
      Append(step, step(s, first[0]), first[1..], second);
    }
  }

  /** What every allowed action keeps, every run of allowed actions keeps. */
  lemma {:induction false} Keeps<S(!new), A(!new)>(step: (S, A) -> S, inv: S -> bool, allowed: A -> bool,
                                                   s: S, actions: seq<A>)
    requires forall s, a :: inv(s) && allowed(a) ==> inv(step(s, a))
    requires inv(s) && forall a <- actions :: allowed(a)
    ensures inv(After(step, s, actions))
    decreases |actions|
  {
    if actions != [] {
      Keeps(step, inv, allowed, step(s, actions[0]), actions[1..]);
    }
  }
}
