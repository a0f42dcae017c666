/** A run of a state machine: the state after a sequence of events. */
module Runs {
  function Run<S, E>(step: (S, E) -> S, s: S, es: seq<E>): S
  {
    if es == [] then s else step(Run(step, s, es[..|es| - 1]), es[|es| - 1])
  }

  /** One step further along a run. */
  lemma RunStep<S, E>(step: (S, E) -> S, s: S, es: seq<E>, i: nat)
    requires i < |es|
    ensures Run(step, s, es[..i + 1]) == step(Run(step, s, es[..i]), es[i])
  {
    assert es[..i + 1][..i] == es[..i];
  }

  lemma RunTwo<S, E>(step: (S, E) -> S, s: S, es: seq<E>, a: E, b: E)
    ensures Run(step, s, es + [a, b]) == step(step(Run(step, s, es), a), b)
  {
    assert (es + [a, b])[..|es| + 1] == es + [a];
    assert (es + [a])[..|es|] == es;
  }
}
