# Root finding: bisection, Newton–Raphson and secant

This project models the three root-finding procedures of `EquationRoots.py` and
proves properties of them: `bisection_method`, `newton_method` and
`secant_method`. Each procedure is a loop over local iterate variables. It
returns either a root or the absence marker (Python's `None`), together with an
iteration count. In the model that pair is the datatype
`RootResult = Found(root, iterations) | Failed(iterations)`, and each procedure
is a Dafny method with the source's loop, branches and early returns.

Each module is built the same way:

- **A verdict function** says what one pass of the loop does with the current
  state: `NewtonStep`, `SecantStep`, `BisectionStep`. It returns a datatype with
  one constructor per way a pass can end the loop, plus one for "carry on".
- **A state sequence** gives the state after n passes that all carried on:
  the iterate `Iterate` (Newton), the window `Window` (secant), the bracket
  `Bracket` (bisection). It is `None` once a pass has stopped.
- **An outcome predicate** pins the result down exactly, in terms of that
  sequence: `NewtonOutcome`, `SecantOutcome`, `BisectionOutcome`. It covers
  which pass decided the result, with which verdict, and what count and value
  are reported.
- **The method** is proved to return a result satisfying the outcome
  predicate. The loop invariant ties the loop variables to the state sequence.
- **Lemmas** prove what the source promises about that outcome:
  - determinism: two results satisfying the predicate are equal;
  - the stop conditions: zero derivative, zero denominator, evaluation error,
    residual tie, exhausted budget;
  - the bracket properties of bisection: exact halving, nesting, the sign
    change, the iteration bound and the accuracy of the result.

Floats are modelled as exact `real`s. The function handles are parameters:
`real -> real` for Newton and bisection. For the secant method the handle is
`real -> Option<real>`, where `None` is an evaluation that raises. The source
catches that exception at `EquationRoots.py:41-46`. Python's `int` budget
`max_iterations` is an `int`, so a negative budget runs no passes
(`Budget(m) = max(m, 0)`). The default arguments of the three Python
functions are Dafny default parameters: `epsilon := 0.0001` for all three, and
`maxIterations := 100` for Newton and secant.

`bisection_method` checks neither the sign of `epsilon` nor the order of
`start` and `end`:

- `BisectionMethod` requires that the call returns: `epsilon > 0`, or no sign
  change at the ends, or a loop guard `(end - start) / 2 > epsilon` that is
  false at entry. Every other call runs forever over exact reals, and
  `NonPositiveToleranceNeverStops` proves it. With `epsilon <= 0`, halving a
  half width above `epsilon` keeps it above `epsilon`, so the guard stays
  true. And `|f(mid)| < epsilon` can never hold. Without a sign change the source returns
  `(None, 0)` whatever `epsilon` is, and so does the model.
- `start < end` is not required. With `start > end` and a sign change, the
  guard is false at once whenever `epsilon >= (end - start) / 2`, for example
  for every `epsilon >= 0`. The source then returns `((start + end) / 2, 0)`,
  and the model does the same. The result is strictly between
  `Min(start, end)` and `Max(start, end)` in every case. The lemmas that need
  an ordered bracket take `start < end` as a hypothesis. The lemmas about the
  bracket's sign change and accuracy also take `epsilon > 0`: with
  `epsilon > 0`, a pass that does not stop has `f(mid) != 0`, which is what
  keeps the sign change.

The loop of `bisection_method` has no counter bound. `BisectionMethod`
terminates with the measure `floor((b - a) / epsilon)`, which
`HalvingLowersMeasure` shows drops on every pass. For `epsilon <= 0` the loop
body is never entered.

## Model

| member | source | states |
|---|---|---|
| `RootResults.Abs` | EquationRoots.py:24 | Python's `abs` on a float, as used at lines 24, 48, 51, 62 and 82: the result is non-negative and is either x or -x |
| `RootResults.Budget` | EquationRoots.py:17 | Definition: `max(max_iterations, 0)`. That it is the number of passes the guard `while iterations < max_iterations` allows from 0 is proved by `NewtonMethod`, `SecantMethod` (the guard at line 40) and the two `BudgetExhaustedFails` lemmas |
| `NewtonRaphson.NewtonStep` | EquationRoots.py:18-27 | One pass of the loop: a zero derivative gives up before dividing; otherwise the step `x - f(x)/f'(x)` is accepted when shorter than epsilon, and the loop carries on from it when not |
| `NewtonRaphson.Iterate` | EquationRoots.py:16-27 | The iterate after n passes that all carried on, and `None` once a pass has stopped |
| `NewtonRaphson.NewtonOutcome` | EquationRoots.py:15-29 | The result of a run: the pass that decided it, its verdict, and the count and root reported, with the budget stop as count `Budget(max_iterations)` |
| `NewtonRaphson.NewtonMethod` | EquationRoots.py:15-29 | The result satisfies `NewtonOutcome`. A failure with count n means passes 0..n-1 advanced, and then either n is the budget, or pass n met `dfunc(x) == 0` and no division happened. A success means pass n-1 converged. The count never exceeds the budget. A success has `1 <= iterations <= max_iterations`. Its root is `x - f(x)/f'(x)` for the previous iterate x, where `f'(x) != 0` and the step is shorter than epsilon |
| `NewtonRaphson.IteratePrefix` | EquationRoots.py:17-27 | If the loop reaches iterate n, then every earlier pass had a nonzero derivative and a step of at least epsilon |
| `NewtonRaphson.NewtonOutcomeUnique` | EquationRoots.py:15-29 | Determinism: two results that both satisfy the Newton outcome are equal, so the method's contract fixes the result |
| `NewtonRaphson.ZeroDerivativeStops` | EquationRoots.py:20-22 | If the derivative is zero at an iterate reached within the budget, the result is `None` with that iteration's count |
| `NewtonRaphson.BudgetExhaustedFails` | EquationRoots.py:17-29 | If every pass within the budget advances, the result is `None` with count equal to the budget |
| `NewtonRaphson.StepIsTangentZero` | EquationRoots.py:23 | The new iterate is the zero of the tangent at x: `f(x) + f'(x) * (x1 - x) == 0` |
| `Secant.SecantPoint` | EquationRoots.py:60 | The secant update `x1 - f(x1) * (x1 - x0) / (f(x1) - f(x0))`, defined only for a nonzero denominator |
| `Secant.SecantStep` | EquationRoots.py:41-66 | One pass of the loop, with the checks in the source's order: an evaluation error, a small residual at x0, then at x1, a zero denominator, a converged step, or a shift of the window to `(x1, x2)` |
| `Secant.Window` | EquationRoots.py:40-66 | The window `(x0, x1)` after n passes that all shifted it, and `None` once a pass has stopped |
| `Secant.SecantOutcome` | EquationRoots.py:31-69 | The result of a run: identical seeds fail with 0, and otherwise the pass that decided the result, its verdict, and the count and value reported |
| `Secant.SecantMethod` | EquationRoots.py:31-69 | The result satisfies `SecantOutcome`. Identical seeds give `Failed(0)`. The count never exceeds the budget. A success either has residual below epsilon at the returned point, with the count not advanced, or ends a secant step shorter than epsilon, counted as `iteration + 1 <= max_iterations`. A failure is an evaluation error, a zero denominator (no division happens) or budget exhaustion |
| `Secant.WindowPrefix` | EquationRoots.py:40-66 | If the loop reaches window n, every earlier pass shifted the window |
| `Secant.SecantOutcomeUnique` | EquationRoots.py:31-69 | Determinism: two results that both satisfy the secant outcome are equal |
| `Secant.ZeroDenominatorStops` | EquationRoots.py:48-58 | If, at a window reached within the budget, both points evaluate, neither residual is below epsilon and `f(x1) - f(x0) == 0`, the result is `None` at that iteration |
| `Secant.EvaluationErrorStops` | EquationRoots.py:41-46 | If an evaluation fails at a window reached within the budget, the result is `None` at that iteration |
| `Secant.FirstResidualWins` | EquationRoots.py:48-53 | When the first window point has residual below epsilon (and the second evaluates), the result is that first point at the current count, whatever the residual of the second point |
| `Secant.BudgetExhaustedFails` | EquationRoots.py:40-69 | If every pass within the budget shifts the window, the result is `None` with count equal to the budget |
| `Secant.SecantPointIsChordZero` | EquationRoots.py:60 | The update `x2` is the zero of the chord through `(x0, f(x0))` and `(x1, f(x1))` |
| `Bisection.BisectionStep` | EquationRoots.py:78-87 | One pass of the loop: the loop exits when half the width is at most epsilon, returns a midpoint whose residual is below epsilon, and otherwise keeps `(a, mid)` when `f(a) * f(mid) < 0` and `(mid, b)` when not |
| `Bisection.Bracket` | EquationRoots.py:78-87 | The bracket `(a, b)` after n passes that all narrowed it, and `None` once a pass has stopped |
| `Bisection.BisectionOutcome` | EquationRoots.py:71-88 | The result of a run: `None` with 0 without a sign change, and otherwise the midpoint of the bracket at which the loop exits, or the midpoint returned early, with the count reported |
| `Bisection.BisectionMethod` | EquationRoots.py:71-88 | On every call that returns, the result satisfies `BisectionOutcome`. It fails exactly when `f(start) * f(end) >= 0`, whatever epsilon is, and then with 0 iterations. Any root lies strictly between start and end. The loop terminates |
| `Bisection.NonPositiveToleranceNeverStops` | EquationRoots.py:78-87 | With `epsilon <= 0` and the guard `(end - start) / 2 > epsilon` true at entry, every pass narrows the bracket and the guard stays true, so no pass exits or returns: the source's loop does not terminate on the calls `BisectionMethod` excludes |
| `Bisection.HalvingLowersMeasure` | EquationRoots.py:78 | While `(b - a) / 2 > epsilon > 0`, halving b - a strictly lowers `floor((b - a) / epsilon)`, and that measure stays at or above 0: the loop terminates |
| `Bisection.PassNarrows` | EquationRoots.py:78-87 | A pass that neither exits nor stops early replaces exactly one endpoint by the midpoint, halves `b - a` and lowers the termination measure |
| `Bisection.MidpointInRange` | EquationRoots.py:78-88 | The midpoint of every bracket the loop reaches, and so every returned root, lies strictly between start and end, in either order of the two |
| `Bisection.BracketPrefix` | EquationRoots.py:78-87 | If the loop reaches bracket n, every earlier pass narrowed the bracket |
| `Bisection.BracketHalves` | EquationRoots.py:84-87 | After n passes the width `b - a` is exactly `end - start` halved n times |
| `Bisection.HalvedIsQuotient` | EquationRoots.py:78-87 | Halving n times is dividing by 2^n, so the width is `(end - start) / 2^n` |
| `Bisection.BracketNested` | EquationRoots.py:84-87 | For `start < end`, whatever epsilon is: each pass sets exactly one of a, b to the midpoint. The new bracket lies inside the old, and all brackets lie inside `[start, end]` |
| `Bisection.BracketKeepsSignChange` | EquationRoots.py:75-87 | Given `epsilon > 0` and a sign change at the ends, every bracket the loop reaches has `f(a) * f(b) < 0` |
| `Bisection.BisectionOutcomeUnique` | EquationRoots.py:71-88 | Determinism: two results that both satisfy the bisection outcome are equal |
| `Bisection.IterationsLogBound` | EquationRoots.py:78-79 | A count n >= 1 satisfies `end - start > epsilon * 2^n`, so the count grows only with `log2((end - start) / epsilon)` |
| `Bisection.FoundRootIsBracketed` | EquationRoots.py:78-88 | For `start < end` and `epsilon > 0`: a returned root either has residual below epsilon, or is the midpoint of a sign-changing bracket inside `[start, end]` of width at most `2 * epsilon` |
| `SampleFunctions.F` | EquationRoots.py:7-9 | `x^3 - 6x^2 + 11x - 6 == (x - 1)(x - 2)(x - 3)`: its roots are 1, 2 and 3 |
| `SampleFunctions.Df` | EquationRoots.py:11-13 | Definition: `3x^2 - 12x + 11`. That it is the derivative of `f` is stated by `DfIsDerivativeOfF` |
| `SampleFunctions.DfIsDerivativeOfF` | EquationRoots.py:11-13 | `df` is the derivative of `f`: `f(x + h) - f(x) == h * df(x) + h^2 (3x - 6) + h^3` |
| `SampleFunctions.BisectionWithoutSignChange` | EquationRoots.py:75-77 | Bisection of `x` on [1, 2] returns `Failed(0)` |
| `SampleFunctions.BisectionNegativeToleranceWithoutSignChange` | EquationRoots.py:75-77 | Bisection of `x` on [1, 2] with epsilon -1 returns `Failed(0)`: the sign test comes before any use of epsilon |
| `SampleFunctions.BisectionReversedBracketZeroTolerance` | EquationRoots.py:78-88 | Bisection of `x` on (1, -1) with epsilon 0 returns `Found(0, 0)`: the loop guard is false at entry |
| `SampleFunctions.BisectionFirstMidpointIsRoot` | EquationRoots.py:79-83 | Bisection of `x - 1` on [0, 2] returns `Found(1, 1)`: the early exit counts its iteration |
| `SampleFunctions.BisectionOnCubic` | EquationRoots.py:71-83 | Bisection of `f` on [1.5, 2.5] with the default epsilon 0.0001 returns `Found(2, 1)` |
| `SampleFunctions.NewtonZeroDerivative` | EquationRoots.py:15-22 | Newton on `x^3`, `3x^2` from 0 with the default epsilon and budget returns `Failed(0)` |
| `SampleFunctions.NewtonFromRoot` | EquationRoots.py:23-25 | Newton on `f`, `df` from the root 2 returns `Found(2, 1)` |
| `SampleFunctions.NewtonSquareRootOfTwo` | EquationRoots.py:15-29 | Newton on `x^2 - 2` from 1 (epsilon 0.0001) returns `Found(665857/470832, 4)` |
| `SampleFunctions.SecantIdenticalSeeds` | EquationRoots.py:31-38 | The secant method with seeds 2, 2 and the default epsilon and budget returns `Failed(0)` |
| `SampleFunctions.SecantTieFavoursFirstSeed` | EquationRoots.py:48-50 | The secant method on `f` with seeds 1, 2 (both roots) returns `Found(1, 0)` |
| `SampleFunctions.SecantSecondSeedIsRoot` | EquationRoots.py:51-53 | The secant method on `f` with seeds 0.5, 2 returns `Found(2, 0)` |
| `SampleFunctions.SecantEvaluationError` | EquationRoots.py:41-46 | The secant method on `1/x` (undefined at 0) with seeds 0, 1 returns `Failed(0)` |

## Left out

- `plot_function_with_roots` (EquationRoots.py:90-119): plotting and presentation only.
- The `main` driver (EquationRoots.py:120-201): menu input and a range scan. It sits inside a string literal and is never run, and it calls an undefined `newton_raphson`.
- Every `print` diagnostic: logging only, not part of the returned pair.
- IEEE-754 rounding, NaN and infinities: floats are exact reals. No claim of convergence to a true root or of a convergence rate is made. The square-root-of-two example counts exact rational iterates. The termination of `BisectionMethod` is proved over exact reals only. With floats the loop can stall once `b - a` is one unit in the last place and `epsilon` is below half of it, because the midpoint then rounds to an endpoint and the bracket stops changing.
- Exceptions raised by `func` or `dfunc` inside `newton_method`, and by `f` inside `bisection_method`: the source does not catch them, so they reach the caller. These handles are total functions in the model.
- Evaluation order in the secant loop: the model evaluates `func(x1)` even when `func(x0)` has already failed. The handles are pure, so the result is the same.
- `BisectionMethod`: requires `epsilon > 0`, no sign change, or `(end - start) / 2 <= epsilon`. The source does not check this. On the excluded calls the source's loop never ends over exact reals (`NonPositiveToleranceNeverStops`), so there is no result to model.
