# Two example systems for an explicit-state model checker

The model checker explores every state that a *system description* can reach.
A description gives the checker four things:
- its initial states;
- the actions offered in a state, pushed onto a vector the caller owns;
- the successor for an action, or `None` when the action is inapplicable;
- a list of properties, each tagged `Always` (must hold on every reachable state) or `Sometimes` (must hold on at least one).

This project models two such descriptions, from `src/test_util.rs`, and proves facts about each machine.

- **Binary clock** (`binary_clock.dfy`, module `BinaryClockModel`). The state is a signed byte (`i8`). The initial states are 0 and 1. From 0 the clock offers `GoHigh`; from every other value, negatives included, it offers `GoLow`. `GoLow` always leads to 0 and `GoHigh` always leads to 1, whatever the source state. The clock declares one `Always` property, "in [0, 1]". The proofs show this is an inductive invariant, and that the reachable states are exactly 0 and 1.
- **Linear equation solver** (`linear_equation.dfy`, module `LinearEquationSolver`). The state is a guess `(x, y)` of two unsigned bytes (`u8`), starting at (0, 0). Every state offers `IncreaseX` then `IncreaseY`, and each increments one coordinate, wrapping 255 to 0. The `Sometimes` property "solvable" is `a*x + b*y == c` in wrapping `u8` arithmetic. The proofs show:
  - a run's end state is its number of each guess, modulo 256;
  - so the end state does not depend on the order of the guesses, and every `(x, y)` is reachable;
  - for the equation `x + y == 2`, the shortest run to a solution has two guesses.

Shared pieces:
- `integers.dfy` (module `Integers`): the `i8` and `u8` types, and wrapping `u8` addition and multiplication written out as arithmetic modulo 256.
- `interface.dfy` (module `Interface`): `Option`, the property record, and the caller-owned `Vec` that `actions` pushes onto. It also defines `Run`, which takes a path of actions from a state, each of which must be offered there, and the `Reachable` predicate built on it.

## Model

| member | source | states |
|---|---|---|
| Integers.WrappingAdd | src/test_util.rs:75-76 | the sum of two bytes; when it reaches 256 the result is the sum minus 256 |
| Integers.WrappingMul | src/test_util.rs:89-91 | the product of two bytes is congruent to the exact product modulo 256 and equals it when it does not overflow; multiplying by 1 gives the other factor |
| Integers.WrappingLinear | src/test_util.rs:88-91 | `a*x + b*y` computed with wrapping `u8` operations equals the exact value reduced modulo 256 |
| BinaryClockModel.InitStates | src/test_util.rs:19-21 | two distinct initial states, and they are exactly the values in [0, 1] |
| BinaryClockModel.Offered | src/test_util.rs:23-29 | exactly one action: `GoHigh` if and only if the state is 0, `GoLow` if and only if it is not, negatives included |
| BinaryClockModel.Actions | src/test_util.rs:23-29 | the caller's vector gains exactly the offered action at its end; its earlier contents are unchanged |
| BinaryClockModel.NextState | src/test_util.rs:31-36 | never `None`; the result is in [0, 1], and is 1 exactly for `GoHigh` |
| BinaryClockModel.Properties | src/test_util.rs:38-44 | one `Always` property named "in [0, 1]" whose condition holds exactly on 0 and 1 |
| BinaryClockModel.NextStateIgnoresSource | src/test_util.rs:31-36 | the successor for an action is the same from every source state |
| BinaryClockModel.InitStatesInRange | src/test_util.rs:19-42 | base case: every initial state satisfies "in [0, 1]" |
| BinaryClockModel.NextStateInRange | src/test_util.rs:31-42 | step: every successor, from any state and for any action, satisfies "in [0, 1]" |
| BinaryClockModel.RunStaysInRange | src/test_util.rs:19-42 | every run of offered actions from an in-range state ends in range |
| BinaryClockModel.ReachableIffInRange | src/test_util.rs:19-44 | a state is reachable from the initial states if and only if it is 0 or 1, so the "in [0, 1]" property holds on every reachable state |
| BinaryClockModel.Alternates | src/test_util.rs:23-36 | from 0 or 1, the one offered action leads to the other value, and any other action is not offered |
| LinearEquationSolver.InitStates | src/test_util.rs:63-65 | exactly one initial state, (0, 0) |
| LinearEquationSolver.Offered | src/test_util.rs:67-70 | exactly two guesses, `IncreaseX` first, both guesses present, from every state |
| LinearEquationSolver.Actions | src/test_util.rs:67-70 | the caller's vector gains `IncreaseX` then `IncreaseY` at its end; its earlier contents are unchanged |
| LinearEquationSolver.NextState | src/test_util.rs:72-78 | never `None`; the chosen coordinate goes up by one, 255 wraps to 0, and the other coordinate is unchanged |
| LinearEquationSolver.SolvableIff | src/test_util.rs:82-92 | "solvable" holds exactly when `(a*x + b*y) mod 256 == c` |
| LinearEquationSolver.Properties | src/test_util.rs:80-94 | one `Sometimes` property named "solvable" whose condition holds exactly when `(a*x + b*y) mod 256 == c` |
| LinearEquationSolver.RunCounts | src/test_util.rs:72-78 | a run from `(x, y)` ends at `(x + #IncreaseX, y + #IncreaseY)`, each modulo 256 |
| LinearEquationSolver.RunOrderIndependent | src/test_util.rs:72-78 | two runs with the same guesses in any order end in the same state |
| LinearEquationSolver.RepeatsReach | src/test_util.rs:72-78 | `x` times `IncreaseX` then `y` times `IncreaseY` lead from (0, 0) to `(x, y)` |
| LinearEquationSolver.EveryStateReachable | src/test_util.rs:63-78 | every `(x, y)` pair is reachable from the initial states |
| LinearEquationSolver.DistanceLowerBound | src/test_util.rs:63-78 | every run from (0, 0) is defined, and its end state `(x, y)` has `x + y` at most the run's length |
| LinearEquationSolver.ExampleWitnesses | src/test_util.rs:63-92 | for `x + y == 2`: (2, 0) and (0, 2) are solutions, each two guesses from (0, 0); (0, 0), (1, 0) and (0, 1) are not solutions |
| LinearEquationSolver.ShortestExampleWitness | src/test_util.rs:63-92 | for `x + y == 2`, every run from (0, 0) that ends at a solution has at least two guesses |

## Left out

- The model checker is not modelled. That covers the `Model` trait, the behaviour of `Property::always` and `Property::sometimes`, the visited-state store, the breadth-first frontier, trace reconstruction and verdicts. `src/test_util.rs` only uses them; their code is not part of this model. `Run` and `Reachable` only define what "reachable" means; they are not a search.
- A property is modelled as a record of its expectation, name and condition. The rest of the library's `Property` type is not part of this model.
- Worker threads and any other concurrency: nothing in `src/test_util.rs` is concurrent.
- The derived `Clone`, `Debug` and `PartialEq` implementations. The `std::num::Wrapping` type is written out as arithmetic modulo 256 instead.
- The `&self` receivers are dropped where the code ignores them. Only the condition of a property takes the system description, as the closures in the source do.
- `Vec::push` is modelled as appending to a sequence. Its panic when capacity overflows is not modelled.
