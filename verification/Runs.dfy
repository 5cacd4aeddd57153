// Runs of a deterministic state machine, and the induction they share.
module Runs {

  function Run<S, E>(step: (S, E) -> S, s: S, events: seq<E>): S {
    if events == [] then s else Run(step, step(s, events[0]), events[1..])
  }

  ghost predicate Preserves<S(!new), E(!new)>(step: (S, E) -> S, inv: S -> bool, enabled: E -> bool) {
    forall s: S, e: E :: inv(s) && enabled(e) ==> inv(step(s, e))
  }

  /** What every enabled step keeps, every run keeps. */
  lemma {:induction false} RunKeeps<S(!new), E(!new)>(step: (S, E) -> S, inv: S -> bool, enabled: E -> bool,
                                                      s: S, events: seq<E>)
    requires Preserves(step, inv, enabled) && inv(s)
    requires forall e :: e in events ==> enabled(e)
    ensures inv(Run(step, s, events))
  {
    if events != [] {
      assert events[0] in events;
      assert inv(step(s, events[0]));
      RunKeeps(step, inv, enabled, step(s, events[0]), events[1..]);
    }
  }

  lemma RunOne<S, E>(step: (S, E) -> S, s: S, e: E)
    ensures Run(step, s, [e]) == step(s, e)
  {
    assert [e][1..] == [];
  }

  /** A run may be cut at any event. */
  lemma {:induction false} RunSplits<S, E>(step: (S, E) -> S, s: S, events: seq<E>, n: nat)
    requires n <= |events|
    ensures Run(step, s, events) == Run(step, Run(step, s, events[..n]), events[n..])
    decreases n
  {
    if n == 0 {
      assert events[..0] == [] && events[0..] == events;
    } else {
      assert events[..n][1..] == events[1..][..n - 1] && events[1..][n - 1..] == events[n..];
      RunSplits(step, step(s, events[0]), events[1..], n - 1);
    }
  }
}
