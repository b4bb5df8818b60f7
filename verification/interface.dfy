/**
 * The vocabulary through which a system description talks to the model
 * checker: optional successor states, properties tagged `Always` or
 * `Sometimes`, the caller-owned vector that `actions` appends to, and the
 * meaning of "reachable" that the checker's properties are about. The
 * checker itself (its state store, frontier and verdicts) is not modelled.
 */
module Interface {

  /** Rust's `Option`: `None` is an inapplicable action. */
  datatype Option<T> = None | Some(value: T)

  /** Whether a property must hold on every reachable state or on at least one. */
  datatype Expectation = Always | Sometimes

  /** A named property with its condition over the system description and a state. */
  datatype Property<!M, !S> = Property(expectation: Expectation, name: string, condition: (M, S) -> bool)

  /** Rust's `Vec`, as the caller-owned buffer that `actions` pushes onto in place. */
  class Vec<T> {
    var elems: seq<T>

    constructor ()
      ensures elems == []
    {
      elems := [];
    }

    method Push(x: T)
      modifies this
      ensures elems == old(elems) + [x]
    {
      elems := elems + [x];
    }
  }

  /**
   * The state reached from `s` by taking the actions of `path` in turn, each of
   * which must be among those `offered` in the state it is taken from; `None`
   * when some action is not offered or `next` finds it inapplicable.
   */
  function Run<S, A(==)>(offered: S -> seq<A>, next: (S, A) -> Option<S>, s: S, path: seq<A>): Option<S>
    decreases |path|
  {
    if path == [] then Some(s)
    else if path[0] !in offered(s) then None
    else match next(s, path[0])
      case None => None
      case Some(t) => Run(offered, next, t, path[1..])
  }

  /** A run whose first action is offered and applies continues from that action's successor. */
  lemma RunStep<S, A>(offered: S -> seq<A>, next: (S, A) -> Option<S>, s: S, path: seq<A>)
    requires path != [] && path[0] in offered(s) && next(s, path[0]).Some?
    ensures Run(offered, next, s, path) == Run(offered, next, next(s, path[0]).value, path[1..])
  {
  }

  /** `t` is reached from some initial state by some run. */
  ghost predicate Reachable<S, A(!new)>(init: seq<S>, offered: S -> seq<A>, next: (S, A) -> Option<S>, t: S) {
    exists s, path :: s in init && Run(offered, next, s, path) == Some(t)
  }
}
