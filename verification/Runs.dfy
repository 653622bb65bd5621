/** Stock datatypes and the one notion of a run that every state machine of the project uses. */
module Runs {
  datatype Option<+T> = None | Some(value: T)

  /** The state reached from s after the events evs, one step per event. Step functions are total:
      an event that cannot happen in a state leaves it unchanged, so every sequence of events is a run
      and "for every run" is "for every evs". */
  function Exec<S, E>(step: (S, E) -> S, s: S, evs: seq<E>): S
    decreases |evs|
  {
    if |evs| == 0 then s else step(Exec(step, s, evs[..|evs| - 1]), evs[|evs| - 1])
  }

  lemma ExecSnoc<S, E>(step: (S, E) -> S, s: S, evs: seq<E>, e: E)
    ensures Exec(step, s, evs + [e]) == step(Exec(step, s, evs), e)
  {
    assert (evs + [e])[..|evs|] == evs;
  }

  lemma ExecThree<S, E>(step: (S, E) -> S, s: S, a: E, b: E, c: E)
    ensures Exec(step, s, [a, b, c]) == step(step(step(s, a), b), c)
  {
    ExecSnoc(step, s, [], a);
    ExecSnoc(step, s, [a], b);
    ExecSnoc(step, s, [a, b], c);
    assert [] + [a] == [a] && [a] + [b] == [a, b] && [a, b] + [c] == [a, b, c];
  }

  /** A run that goes on is a run from where it was. */
  lemma {:induction false} ExecConcat<S, E>(step: (S, E) -> S, s: S, a: seq<E>, b: seq<E>)
    ensures Exec(step, s, a + b) == Exec(step, Exec(step, s, a), b)
    decreases |b|
  {
    if |b| == 0 {
      assert a + b == a;
    } else {
      var front := b[..|b| - 1];
      ExecConcat(step, s, a, front);
      assert (a + b)[..|a + b| - 1] == a + front;
      assert (a + b)[|a + b| - 1] == b[|b| - 1];
    }
  }
}
