/**
 * A machine that cycles between two states: a signed byte that starts at 0 or
 * 1, is driven high from 0 and low from anything else, and is expected to
 * stay within [0, 1].
 */
module BinaryClockModel {
  import opened Integers
  import opened Interface

  /** The clock itself carries no data. */
  datatype BinaryClock = BinaryClock

  datatype Action = GoLow | GoHigh

  type State = I8

  /** The condition of the clock's only property, "in [0, 1]". */
  predicate InRange(state: State) {
    0 <= state <= 1
  }

  /** The clock may start in either of its two in-range values, each listed once. */
  function InitStates(): (r: seq<State>)
    ensures |r| == 2 && r[0] != r[1]
    ensures forall s :: s in r <==> InRange(s)
  {
    [0, 1]
  }

  /** The one action the clock offers: `GoHigh` from 0, `GoLow` from every other value. */
  function Offered(state: State): (r: seq<Action>)
    ensures |r| == 1
    ensures r[0] == GoHigh <==> state == 0
    ensures r[0] == GoLow <==> state != 0
  {
    if state == 0 then [GoHigh] else [GoLow]
  }

  /** Pushes the offered action onto the caller's vector, leaving what it held in place. */
  method Actions(state: State, actions: Vec<Action>)
    modifies actions
    ensures actions.elems == old(actions.elems) + Offered(state)
    ensures |actions.elems| == |old(actions.elems)| + 1
    ensures actions.elems[..|old(actions.elems)|] == old(actions.elems)
  {
    if state == 0 {
      actions.Push(GoHigh);
    } else {
      actions.Push(GoLow);
    }
  }

  /** Every action applies, and lands in range: 1 for `GoHigh`, 0 for `GoLow`. */
  function NextState(state: State, action: Action): (r: Option<State>)
    ensures r.Some? && InRange(r.value)
    ensures r.value == 1 <==> action == GoHigh
  {
    match action
    case GoLow => Some(0)
    case GoHigh => Some(1)
  }

  /** The clock declares one `Always` property, "in [0, 1]". */
  function Properties(): (r: seq<Property<BinaryClock, State>>)
    ensures |r| == 1
    ensures r[0].expectation == Always && r[0].name == "in [0, 1]"
    ensures forall s :: r[0].condition(BinaryClock, s) <==> s == 0 || s == 1
  {
    [Property(Always, "in [0, 1]", (_, s) => InRange(s))]
  }

  /** The successor does not depend on the state it is taken from. */
  lemma NextStateIgnoresSource(s: State, t: State, action: Action)
    ensures NextState(s, action) == NextState(t, action)
  {
  }

  /** Every initial state satisfies the invariant (the base case). */
  lemma InitStatesInRange()
    ensures forall s :: s in InitStates() ==> Properties()[0].condition(BinaryClock, s)
  {
  }

  /** Every successor satisfies the invariant, whatever the source state (the step). */
  lemma NextStateInRange(s: State, action: Action)
    ensures Properties()[0].condition(BinaryClock, NextState(s, action).value)
  {
  }

  /** Any run from an in-range state ends in range. */
  lemma {:induction false} RunStaysInRange(s: State, path: seq<Action>)
    requires InRange(s)
    ensures Run(Offered, NextState, s, path).Some? ==> InRange(Run(Offered, NextState, s, path).value)
    decreases |path|
  {
    if path != [] && path[0] in Offered(s) {
      RunStaysInRange(NextState(s, path[0]).value, path[1..]);
    }
  }

  /** The reachable states are exactly 0 and 1, so "in [0, 1]" holds on all of them. */
  lemma ReachableIffInRange(t: State)
    ensures Reachable(InitStates(), Offered, NextState, t) <==> InRange(t)
    ensures Reachable(InitStates(), Offered, NextState, t) ==> Properties()[0].condition(BinaryClock, t)
  {
    if Reachable(InitStates(), Offered, NextState, t) {
      var s, path :| s in InitStates() && Run(Offered, NextState, s, path) == Some(t);
      RunStaysInRange(s, path);
    }
    if InRange(t) {
      assert t in InitStates() && Run(Offered, NextState, t, []) == Some(t);
    }
  }

  /** From each in-range value the clock's only move goes to the other value. */
  lemma Alternates(s: State)
    requires InRange(s)
    ensures Run(Offered, NextState, s, Offered(s)) == Some(1 - s)
    ensures forall action :: action != Offered(s)[0] ==> Run(Offered, NextState, s, [action]) == None
  {
    assert Offered(s)[1..] == [];
  }
}
