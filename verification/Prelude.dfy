// Prelude.dfy: the generic datatypes the other modules share.
module Prelude {
  datatype Option<+T> = None | Some(value: T)

  // Something that happens at a time.
  datatype Timed<+E> = Timed(now: int, event: E)

  // The events of a history that starts at time t, in order of time.
  predicate Clocked<E>(t: int, es: seq<Timed<E>>) {
    && (forall i :: 0 <= i < |es| ==> t <= es[i].now)
    && (forall i, j :: 0 <= i < j < |es| ==> es[i].now <= es[j].now)
  }

  function ClockAfter<E>(t: int, es: seq<Timed<E>>): int { if es == [] then t else es[|es| - 1].now }
}
