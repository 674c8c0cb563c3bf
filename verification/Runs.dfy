/** Runs of a machine that takes events one by one and puts out a sequence of results. */
module Runs {
  datatype Step<S, O> = Step(state: S, out: seq<O>)

  /** The state after a run. */
  function End<S, E, O>(f: (S, E) -> Step<S, O>, s: S, es: seq<E>): S {
    if es == [] then s else f(End(f, s, es[..|es| - 1]), es[|es| - 1]).state
  }

  /** Everything put out during a run. */
  function Out<S, E, O>(f: (S, E) -> Step<S, O>, s: S, es: seq<E>): seq<O> {
    if es == [] then [] else Out(f, s, es[..|es| - 1]) + f(End(f, s, es[..|es| - 1]), es[|es| - 1]).out
  }

  lemma {:induction false} Snoc<S, E, O>(f: (S, E) -> Step<S, O>, s: S, es: seq<E>, e: E)
    ensures var o := f(End(f, s, es), e);
            && End(f, s, es + [e]) == o.state
            && Out(f, s, es + [e]) == Out(f, s, es) + o.out
  {
    assert (es + [e])[..|es|] == es;
  }

  lemma {:induction false} Concat<S, E, O>(f: (S, E) -> Step<S, O>, s: S, a: seq<E>, b: seq<E>)
    ensures End(f, s, a + b) == End(f, End(f, s, a), b)
    ensures Out(f, s, a + b) == Out(f, s, a) + Out(f, End(f, s, a), b)
    decreases |b|
  {
    if b == [] {
      assert a + b == a;
    } else {
      Concat(f, s, a, b[..|b| - 1]);
      assert (a + b)[..|a + b| - 1] == a + b[..|b| - 1];
    }
  }
}
