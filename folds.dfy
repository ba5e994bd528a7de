/**
  A `foreach` over a list that threads a state and emits output: the shape of the
  loop at Program.cs line 197, independent of what its body does.
 */
module Folds {

  /** The state after the body `step` has run on every element of `ts`, in order. */
  function Run<S, T>(step: (S, T) -> S, s: S, ts: seq<T>): S {
    if ts == [] then s else step(Run(step, s, ts[..|ts| - 1]), ts[|ts| - 1])
  }

  /** Everything the body emits while doing so, in order. */
  function Trace<S, T, O>(step: (S, T) -> S, out: (S, T) -> seq<O>, s: S, ts: seq<T>): seq<O> {
    if ts == [] then []
    else
      var prefix := ts[..|ts| - 1];
      Trace(step, out, s, prefix) + out(Run(step, s, prefix), ts[|ts| - 1])
  }

  /** One more element: one more run of the body, whose output comes last. */
  lemma Snoc<S, T, O>(step: (S, T) -> S, out: (S, T) -> seq<O>, s: S, ts: seq<T>, t: T)
    ensures Run(step, s, ts + [t]) == step(Run(step, s, ts), t)
    ensures Trace(step, out, s, ts + [t]) == Trace(step, out, s, ts) + out(Run(step, s, ts), t)
  {
    assert (ts + [t])[..|ts|] == ts;
  }

  lemma {:induction false} RunAppend<S, T>(step: (S, T) -> S, s: S, a: seq<T>, b: seq<T>)
    ensures Run(step, s, a + b) == Run(step, Run(step, s, a), b)
  {
    if b == [] {
      assert a + b == a;
    } else {
      var b' := b[..|b| - 1];
      assert (a + b)[..|a + b| - 1] == a + b';
      RunAppend(step, s, a, b');
    }
  }

  lemma {:induction false} TraceAppend<S, T, O>(step: (S, T) -> S, out: (S, T) -> seq<O>, s: S, a: seq<T>, b: seq<T>)
    ensures Trace(step, out, s, a + b) == Trace(step, out, s, a) + Trace(step, out, Run(step, s, a), b)
  {
    if b == [] {
      assert a + b == a;
    } else {
      var b' := b[..|b| - 1];
      assert (a + b)[..|a + b| - 1] == a + b';
      TraceAppend(step, out, s, a, b');
      RunAppend(step, s, a, b');
    }
  }

  /** Regrouping a concatenation, stated once so that proofs need not look inside the parts. */
  lemma AppendAssoc<T>(a: seq<T>, b: seq<T>, c: seq<T>)
    ensures (a + b) + c == a + (b + c)
  {
  }
}
