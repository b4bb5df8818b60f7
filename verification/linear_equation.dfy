/**
 * A system that solves the linear Diophantine equation `a*x + b*y == c` in
 * `u8`: it starts from the guess (0, 0) and may increase either coordinate by
 * one, wrapping around at 256, until it meets a solution.
 */
module LinearEquationSolver {
  import opened Integers
  import opened Interface

  /** The coefficients and right-hand side of `a*x + b*y == c`. */
  datatype LinearEquation = LinearEquation(a: U8, b: U8, c: U8)

  datatype Guess = IncreaseX | IncreaseY

  /** A guess `(x, y)`. */
  type State = (U8, U8)

  /** The guess (0, 0). */
  const Origin: State := (0, 0)

  /** The search starts from the single guess (0, 0). */
  function InitStates(): (r: seq<State>)
    ensures |r| == 1
    ensures forall s :: s in r <==> s == Origin
  {
    [(0, 0)]
  }

  /** Both guesses are offered from every state, `IncreaseX` first. */
  function Offered(state: State): (r: seq<Guess>)
    ensures |r| == 2 && r[0] == IncreaseX
    ensures IncreaseX in r && IncreaseY in r
  {
    [IncreaseX, IncreaseY]
  }

  /** Pushes both guesses onto the caller's vector, leaving what it held in place. */
  method Actions(state: State, actions: Vec<Guess>)
    modifies actions
    ensures actions.elems == old(actions.elems) + Offered(state)
    ensures |actions.elems| == |old(actions.elems)| + 2
    ensures actions.elems[..|old(actions.elems)|] == old(actions.elems)
  {
    actions.Push(IncreaseX);
    actions.Push(IncreaseY);
  }

  /** Every guess applies; it increases one coordinate, 255 wrapping to 0, and keeps the other. */
  function NextState(state: State, guess: Guess): (r: Option<State>)
    ensures r.Some?
    ensures guess == IncreaseX ==>
      r.value.1 == state.1 && r.value.0 as int == (if state.0 == 255 then 0 else state.0 as int + 1)
    ensures guess == IncreaseY ==>
      r.value.0 == state.0 && r.value.1 as int == (if state.1 == 255 then 0 else state.1 as int + 1)
  {
    var (x, y) := state;
    match guess
    case IncreaseX => Some((WrappingAdd(x, 1), y))
    case IncreaseY => Some((x, WrappingAdd(y, 1)))
  }

  /** The condition of "solvable": `a*x + b*y == c` in wrapping `u8` arithmetic. */
  predicate Solvable(equation: LinearEquation, solution: State) {
    var (x, y) := solution;
    WrappingAdd(WrappingMul(equation.a, x), WrappingMul(equation.b, y)) == equation.c
  }

  /** "Solvable" is the equation taken modulo 256. */
  lemma SolvableIff(equation: LinearEquation, solution: State)
    ensures Solvable(equation, solution)
            <==> (equation.a as int * solution.0 as int + equation.b as int * solution.1 as int) % U8Modulus
                 == equation.c as int
  {
    WrappingLinear(equation.a, solution.0, equation.b, solution.1);
  }

  /** The equation declares one `Sometimes` property, "solvable". */
  function Properties(): (r: seq<Property<LinearEquation, State>>)
    ensures |r| == 1
    ensures r[0].expectation == Sometimes && r[0].name == "solvable"
    ensures forall equation, solution :: r[0].condition(equation, solution)
              <==> (equation.a as int * solution.0 as int + equation.b as int * solution.1 as int) % U8Modulus
                   == equation.c as int
  {
    SolvableIffAll();
    [Property(Sometimes, "solvable", Solvable)]
  }

  lemma SolvableIffAll()
    ensures forall equation, solution :: Solvable(equation, solution)
              <==> (equation.a as int * solution.0 as int + equation.b as int * solution.1 as int) % U8Modulus
                   == equation.c as int
  {
    forall equation, solution {
      SolvableIff(equation, solution);
    }
  }

  /** How many times `guess` occurs in `path`. */
  function Count(path: seq<Guess>, guess: Guess): nat
    decreases |path|
  {
    if path == [] then 0 else (if path[0] == guess then 1 else 0) + Count(path[1..], guess)
  }

  /** The count is the multiplicity of the guess in the path, whatever the order. */
  lemma {:induction false} CountIsMultiplicity(path: seq<Guess>, guess: Guess)
    ensures Count(path, guess) == multiset(path)[guess]
    decreases |path|
  {
    if path != [] {
      CountIsMultiplicity(path[1..], guess);
      assert path == [path[0]] + path[1..];
      assert multiset(path) == multiset([path[0]]) + multiset(path[1..]);
    }
  }

  /** The guess `s` moved `dx` steps along x and `dy` steps along y, each wrapping at 256. */
  function Advance(s: State, dx: nat, dy: nat): State {
    (Wrap(s.0 as int + dx), Wrap(s.1 as int + dy))
  }

  lemma AdvanceTwice(s: State, dx: nat, dy: nat, ex: nat, ey: nat)
    ensures Advance(Advance(s, dx, dy), ex, ey) == Advance(s, dx + ex, dy + ey)
  {
    WrapOfWrappedSummand(s.0 as int + dx, ex);
    WrapOfWrappedSummand(s.1 as int + dy, ey);
  }

  /** One guess advances its own coordinate by one step. */
  lemma NextStateAdvances(s: State, guess: Guess)
    ensures NextState(s, guess)
            == Some(Advance(s, if guess == IncreaseX then 1 else 0, if guess == IncreaseY then 1 else 0))
  {
  }

  /** Running a path moves each coordinate by the path's number of guesses along it, modulo 256. */
  lemma {:induction false} RunCounts(s: State, path: seq<Guess>)
    ensures Run(Offered, NextState, s, path) == Some(Advance(s, Count(path, IncreaseX), Count(path, IncreaseY)))
    decreases |path|
  {
    if path == [] {
      assert Advance(s, 0, 0) == s;
    } else {
      var guess := path[0];
      var dx, dy := if guess == IncreaseX then 1 else 0, if guess == IncreaseY then 1 else 0;
      var t := Advance(s, dx, dy);
      NextStateAdvances(s, guess);
      RunStep(Offered, NextState, s, path);
      RunCounts(t, path[1..]);
      AdvanceTwice(s, dx, dy, Count(path[1..], IncreaseX), Count(path[1..], IncreaseY));
    }
  }

  /** The state a run ends in depends only on how many of each guess it takes, not their order. */
  lemma RunOrderIndependent(s: State, p: seq<Guess>, q: seq<Guess>)
    requires multiset(p) == multiset(q)
    ensures Run(Offered, NextState, s, p) == Run(Offered, NextState, s, q)
  {
    RunCounts(s, p);
    RunCounts(s, q);
    CountIsMultiplicity(p, IncreaseX);
    CountIsMultiplicity(p, IncreaseY);
    CountIsMultiplicity(q, IncreaseX);
    CountIsMultiplicity(q, IncreaseY);
  }

  /** `n` copies of `guess`. */
  function Repeat(guess: Guess, n: nat): (r: seq<Guess>)
    ensures |r| == n
  {
    if n == 0 then [] else [guess] + Repeat(guess, n - 1)
  }

  lemma {:induction false} RepeatCount(guess: Guess, n: nat)
    ensures Count(Repeat(guess, n), guess) == n
    ensures forall other :: other != guess ==> Count(Repeat(guess, n), other) == 0
  {
    if n > 0 {
      RepeatCount(guess, n - 1);
      assert Repeat(guess, n)[1..] == Repeat(guess, n - 1);
    }
  }

  /** `x` times `IncreaseX`, then `y` times `IncreaseY`, lead from (0, 0) to `(x, y)`. */
  lemma RepeatsReach(t: State)
    ensures Run(Offered, NextState, Origin, Repeat(IncreaseX, t.0 as nat) + Repeat(IncreaseY, t.1 as nat)) == Some(t)
  {
    var xs, ys := Repeat(IncreaseX, t.0 as nat), Repeat(IncreaseY, t.1 as nat);
    RepeatCount(IncreaseX, t.0 as nat);
    RepeatCount(IncreaseY, t.1 as nat);
    CountAppend(xs, ys, IncreaseX);
    CountAppend(xs, ys, IncreaseY);
    RunCounts(Origin, xs + ys);
  }

  /** Every guess `(x, y)` is reachable from the initial states. */
  lemma EveryStateReachable(t: State)
    ensures Reachable(InitStates(), Offered, NextState, t)
  {
    RepeatsReach(t);
    assert Origin in InitStates();
  }

  lemma {:induction false} CountAppend(p: seq<Guess>, q: seq<Guess>, guess: Guess)
    ensures Count(p + q, guess) == Count(p, guess) + Count(q, guess)
    decreases |p|
  {
    if p == [] {
      assert p + q == q;
    } else {
      CountAppend(p[1..], q, guess);
      assert (p + q)[1..] == p[1..] + q;
    }
  }

  /** A path has one guess or the other at each step. */
  lemma {:induction false} CountsSum(path: seq<Guess>)
    ensures Count(path, IncreaseX) + Count(path, IncreaseY) == |path|
  {
    if path != [] {
      CountsSum(path[1..]);
    }
  }

  /** Reaching `(x, y)` from (0, 0) takes at least `x + y` guesses. */
  lemma DistanceLowerBound(path: seq<Guess>)
    ensures Run(Offered, NextState, Origin, path).Some?
    ensures var t := Run(Offered, NextState, Origin, path).value; t.0 as int + t.1 as int <= |path|
  {
    RunCounts(Origin, path);
    CountsSum(path);
  }

  /** The equation `x + y == 2` used as the worked example. */
  const Example: LinearEquation := LinearEquation(1, 1, 2)

  /** (2, 0) and (0, 2) solve the example and are two guesses from (0, 0); (0, 0) and its successors do not. */
  lemma ExampleWitnesses()
    ensures Solvable(Example, (2, 0)) && Solvable(Example, (0, 2))
    ensures Run(Offered, NextState, Origin, [IncreaseX, IncreaseX]) == Some((2, 0))
    ensures Run(Offered, NextState, Origin, [IncreaseY, IncreaseY]) == Some((0, 2))
    ensures !Solvable(Example, (0, 0)) && !Solvable(Example, (1, 0)) && !Solvable(Example, (0, 1))
  {
    assert [IncreaseX, IncreaseX][1..] == [IncreaseX];
    assert [IncreaseY, IncreaseY][1..] == [IncreaseY];
  }

  /** No run shorter than two guesses reaches a solution of the example. */
  lemma ShortestExampleWitness(path: seq<Guess>)
    requires Run(Offered, NextState, Origin, path).Some?
    requires Solvable(Example, Run(Offered, NextState, Origin, path).value)
    ensures |path| >= 2
  {
    var t := Run(Offered, NextState, Origin, path).value;
    DistanceLowerBound(path);
    SolvableIff(Example, t);
  }
}
