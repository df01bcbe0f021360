/**
 * Newton–Raphson iteration: from a guess x, step to x - f(x)/f'(x) until a step
 * is shorter than epsilon, the derivative vanishes, or the budget runs out.
 */
module NewtonRaphson {
  import opened RootResults

  /** What one pass of the loop does with the current iterate. */
  datatype NewtonVerdict =
    | ZeroDerivative          // f'(x) == 0: give up before dividing
    | Converged(next: real)   // the step to `next` was shorter than epsilon
    | Advance(next: real)     // carry on from `next`

  function NewtonStep(func: real -> real, dfunc: real -> real, epsilon: real, x: real): NewtonVerdict
  {
    var dfx := dfunc(x);
    if dfx == 0.0 then ZeroDerivative
    else
      var next := x - func(x) / dfx;
      if Abs(next - x) < epsilon then Converged(next) else Advance(next)
  }

  /**
   * The iterate the loop holds after n passes that neither converged nor hit a
   * zero derivative; None when one of the first n passes stopped.
   */
  function Iterate(func: real -> real, dfunc: real -> real, epsilon: real, x0: real, n: nat): Option<real>
  {
    if n == 0 then Some(x0)
    else match Iterate(func, dfunc, epsilon, x0, n - 1)
      case None => None
      case Some(x) =>
        match NewtonStep(func, dfunc, epsilon, x)
        case Advance(next) => Some(next)
        case _ => None
  }

  /**
   * The result the loop must produce. Failure with count n: n passes advanced,
   * and either the budget is spent or pass n met a zero derivative. Success with
   * count n: n - 1 passes advanced and pass n - 1 (zero-based) converged to the
   * root, within the budget.
   */
  predicate NewtonOutcome(func: real -> real, dfunc: real -> real, x0: real, epsilon: real,
                          maxIterations: int, r: RootResult)
  {
    match r
    case Failed(n) =>
      && Iterate(func, dfunc, epsilon, x0, n).Some?
      && (|| n == Budget(maxIterations)
          || (n < Budget(maxIterations) &&
              NewtonStep(func, dfunc, epsilon, Iterate(func, dfunc, epsilon, x0, n).value).ZeroDerivative?))
    case Found(x, n) =>
      && 1 <= n <= Budget(maxIterations)
      && Iterate(func, dfunc, epsilon, x0, n - 1).Some?
      && NewtonStep(func, dfunc, epsilon, Iterate(func, dfunc, epsilon, x0, n - 1).value) == Converged(x)
  }

  /** The loop of `newton_method` in EquationRoots.py, with early returns for a zero derivative and for convergence. */
  method NewtonMethod(func: real -> real, dfunc: real -> real, x0: real,
                      epsilon: real := 0.0001, maxIterations: int := 100)
    returns (r: RootResult)
    ensures NewtonOutcome(func, dfunc, x0, epsilon, maxIterations, r)
    ensures r.iterations <= Budget(maxIterations)
    ensures r.Found? ==> 1 <= r.iterations <= maxIterations
    // a success is one Newton step x - f(x)/f'(x), taken at the previous
    // iterate x with a nonzero derivative, and shorter than epsilon
    ensures r.Found? ==>
              var prev := Iterate(func, dfunc, epsilon, x0, r.iterations - 1);
              && prev.Some?
              && dfunc(prev.value) != 0.0
              && r.root == prev.value - func(prev.value) / dfunc(prev.value)
              && Abs(r.root - prev.value) < epsilon
  {
    var x := x0;
    var iterations: nat := 0;
    while iterations < maxIterations
      invariant iterations <= Budget(maxIterations)
      invariant Iterate(func, dfunc, epsilon, x0, iterations) == Some(x)
    {
      var fx := func(x);
      var dfx := dfunc(x);
      if dfx == 0.0 {
        assert NewtonStep(func, dfunc, epsilon, x) == ZeroDerivative;
        return Failed(iterations);
      }
      var x1 := x - fx / dfx;
      if Abs(x1 - x) < epsilon {
        assert NewtonStep(func, dfunc, epsilon, x) == Converged(x1);
        return Found(x1, iterations + 1);
      }
      x := x1;
      iterations := iterations + 1;
    }
    return Failed(iterations);
  }

  /** Reaching iterate n means every earlier pass advanced. */
  lemma {:induction false} IteratePrefix(func: real -> real, dfunc: real -> real, epsilon: real, x0: real,
                                        j: nat, n: nat)
    requires j < n
    requires Iterate(func, dfunc, epsilon, x0, n).Some?
    ensures Iterate(func, dfunc, epsilon, x0, j).Some?
    ensures NewtonStep(func, dfunc, epsilon, Iterate(func, dfunc, epsilon, x0, j).value).Advance?
  {
    if j < n - 1 {
      IteratePrefix(func, dfunc, epsilon, x0, j, n - 1);
    }
  }

  /** The outcome is a function of the inputs: two runs on the same inputs agree. */
  lemma NewtonOutcomeUnique(func: real -> real, dfunc: real -> real, x0: real, epsilon: real,
                            maxIterations: int, r1: RootResult, r2: RootResult)
    requires NewtonOutcome(func, dfunc, x0, epsilon, maxIterations, r1)
    requires NewtonOutcome(func, dfunc, x0, epsilon, maxIterations, r2)
    ensures r1 == r2
  {
    var n1 := StopIndex(r1);
    var n2 := StopIndex(r2);
    if n1 < n2 {
      IteratePrefix(func, dfunc, epsilon, x0, n1, n2);
    } else if n2 < n1 {
      IteratePrefix(func, dfunc, epsilon, x0, n2, n1);
    }
  }

  /** The zero-based index of the pass at which a result was decided (for a budget stop, the budget). */
  function StopIndex(r: RootResult): nat
  {
    match r
    case Failed(n) => n
    case Found(_, n) => if n == 0 then 0 else n - 1
  }

  /**
   * A zero derivative at an iterate the loop reaches within the budget ends the
   * run there, with the absence marker and that iteration's count.
   */
  lemma ZeroDerivativeStops(func: real -> real, dfunc: real -> real, x0: real, epsilon: real,
                            maxIterations: int, k: nat, r: RootResult)
    requires k < Budget(maxIterations)
    requires Iterate(func, dfunc, epsilon, x0, k).Some?
    requires dfunc(Iterate(func, dfunc, epsilon, x0, k).value) == 0.0
    requires NewtonOutcome(func, dfunc, x0, epsilon, maxIterations, r)
    ensures r == Failed(k)
  {
    NewtonOutcomeUnique(func, dfunc, x0, epsilon, maxIterations, r, Failed(k));
  }

  /** A run whose every pass within the budget advances fails with the whole budget as its count. */
  lemma BudgetExhaustedFails(func: real -> real, dfunc: real -> real, x0: real, epsilon: real,
                             maxIterations: int, r: RootResult)
    requires Iterate(func, dfunc, epsilon, x0, Budget(maxIterations)).Some?
    requires NewtonOutcome(func, dfunc, x0, epsilon, maxIterations, r)
    ensures r == Failed(Budget(maxIterations))
  {
    NewtonOutcomeUnique(func, dfunc, x0, epsilon, maxIterations, r, Failed(Budget(maxIterations)));
  }

  /** A step that does not meet a zero derivative lands on the zero of the tangent at x. */
  lemma StepIsTangentZero(func: real -> real, dfunc: real -> real, epsilon: real, x: real)
    requires !NewtonStep(func, dfunc, epsilon, x).ZeroDerivative?
    ensures func(x) + dfunc(x) * (NewtonStep(func, dfunc, epsilon, x).next - x) == 0.0
  {
  }
}
