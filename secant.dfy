/**
 * The secant method: from two seeds x0, x1, replace the pair by (x1, x2) where
 * x2 is the zero of the line through (x0, f(x0)) and (x1, f(x1)).
 *
 * The function handle may fail to evaluate (a Python exception caught by the
 * `secant_method` in EquationRoots.py); that is modelled by `func` returning None.
 */
module Secant {
  import opened RootResults

  /** What one pass of the loop does with the window (x0, x1). */
  datatype SecantVerdict =
    | EvaluationError         // func raised at x0 or at x1
    | RootAtFirst             // |f(x0)| < epsilon, checked first
    | RootAtSecond            // |f(x1)| < epsilon
    | ZeroDenominator         // f(x1) - f(x0) == 0: give up before dividing
    | Converged(next: real)   // the secant step to `next` was shorter than epsilon
    | Advance(next: real)     // shift the window to (x1, next)

  /** The zero of the line through (x0, f0) and (x1, f1). */
  function SecantPoint(x0: real, x1: real, f0: real, f1: real): real
    requires f1 - f0 != 0.0
  {
    x1 - f1 * (x1 - x0) / (f1 - f0)
  }

  function SecantStep(func: real -> Option<real>, epsilon: real, x0: real, x1: real): SecantVerdict
  {
    match (func(x0), func(x1))
    case (Some(f0), Some(f1)) =>
      if Abs(f0) < epsilon then RootAtFirst
      else if Abs(f1) < epsilon then RootAtSecond
      else if f1 - f0 == 0.0 then ZeroDenominator
      else
        var next := SecantPoint(x0, x1, f0, f1);
        if Abs(next - x1) < epsilon then Converged(next) else Advance(next)
    case _ => EvaluationError
  }

  /**
   * The window the loop holds after n passes that all shifted it; None when one
   * of the first n passes stopped.
   */
  function Window(func: real -> Option<real>, epsilon: real, start: real, end: real, n: nat): Option<(real, real)>
  {
    if n == 0 then Some((start, end))
    else match Window(func, epsilon, start, end, n - 1)
      case None => None
      case Some((x0, x1)) =>
        match SecantStep(func, epsilon, x0, x1)
        case Advance(next) => Some((x1, next))
        case _ => None
  }

  /** The verdict of pass n, on a window the loop reaches. */
  function VerdictAt(func: real -> Option<real>, epsilon: real, start: real, end: real, n: nat): SecantVerdict
    requires Window(func, epsilon, start, end, n).Some?
  {
    var (x0, x1) := Window(func, epsilon, start, end, n).value;
    SecantStep(func, epsilon, x0, x1)
  }

  /**
   * The result the loop must produce. Identical seeds fail at once. Otherwise a
   * failure with count n: n passes shifted the window, and either the budget is
   * spent or pass n met an evaluation error or a zero denominator. A success with
   * count n: either n passes shifted and pass n found a small residual at a window
   * point (x0 before x1), or n - 1 passes shifted and pass n - 1 (zero-based)
   * converged on the root.
   */
  predicate SecantOutcome(func: real -> Option<real>, start: real, end: real, epsilon: real,
                          maxIterations: int, r: RootResult)
  {
    if start == end then r == Failed(0)
    else match r
      case Failed(n) =>
        && Window(func, epsilon, start, end, n).Some?
        && (|| n == Budget(maxIterations)
            || (&& n < Budget(maxIterations)
                && (VerdictAt(func, epsilon, start, end, n).EvaluationError? ||
                    VerdictAt(func, epsilon, start, end, n).ZeroDenominator?)))
      case Found(x, n) =>
        || (&& n < Budget(maxIterations)
            && Window(func, epsilon, start, end, n).Some?
            && ((VerdictAt(func, epsilon, start, end, n).RootAtFirst? && x == Window(func, epsilon, start, end, n).value.0) ||
                (VerdictAt(func, epsilon, start, end, n).RootAtSecond? && x == Window(func, epsilon, start, end, n).value.1)))
        || (&& 1 <= n <= Budget(maxIterations)
            && Window(func, epsilon, start, end, n - 1).Some?
            && VerdictAt(func, epsilon, start, end, n - 1) == Converged(x))
  }

  /** `func` evaluates at x and its value there is below epsilon in magnitude. */
  predicate SmallResidual(func: real -> Option<real>, epsilon: real, x: real)
  {
    func(x).Some? && Abs(func(x).value) < epsilon
  }

  /**
   * The loop of `secant_method` in EquationRoots.py, with early returns for an evaluation error, a small
   * residual at either window point, a zero denominator and convergence.
   */
  method SecantMethod(func: real -> Option<real>, start: real, end: real,
                      epsilon: real := 0.0001, maxIterations: int := 100)
    returns (r: RootResult)
    ensures SecantOutcome(func, start, end, epsilon, maxIterations, r)
    ensures r.iterations <= Budget(maxIterations)
    ensures start == end ==> r == Failed(0)
    // a success either has a small residual or ends a step shorter than epsilon,
    // and only a converged step is counted as one more iteration
    ensures r.Found? ==>
              || (r.iterations < maxIterations && SmallResidual(func, epsilon, r.root))
              || (&& 1 <= r.iterations <= maxIterations
                  && Window(func, epsilon, start, end, r.iterations - 1).Some?
                  && Abs(r.root - Window(func, epsilon, start, end, r.iterations - 1).value.1) < epsilon)
  {
    var x0 := start;
    var x1 := end;
    var iteration: nat := 0;
    if x0 == x1 {
      return Failed(iteration);
    }
    while iteration < maxIterations
      invariant iteration <= Budget(maxIterations)
      invariant Window(func, epsilon, start, end, iteration) == Some((x0, x1))
    {
      var fx0 := func(x0);
      var fx1 := func(x1);
      if fx0.None? || fx1.None? {
        assert VerdictAt(func, epsilon, start, end, iteration) == EvaluationError;
        return Failed(iteration);
      }
      var f_x0, f_x1 := fx0.value, fx1.value;
      if Abs(f_x0) < epsilon {
        assert VerdictAt(func, epsilon, start, end, iteration) == RootAtFirst;
        return Found(x0, iteration);
      }
      if Abs(f_x1) < epsilon {
        assert VerdictAt(func, epsilon, start, end, iteration) == RootAtSecond;
        return Found(x1, iteration);
      }
      var denominator := f_x1 - f_x0;
      if denominator == 0.0 {
        assert VerdictAt(func, epsilon, start, end, iteration) == ZeroDenominator;
        return Failed(iteration);
      }
      var x2 := SecantPoint(x0, x1, f_x0, f_x1);
      if Abs(x2 - x1) < epsilon {
        assert VerdictAt(func, epsilon, start, end, iteration) == Converged(x2);
        return Found(x2, iteration + 1);
      }
      assert VerdictAt(func, epsilon, start, end, iteration) == Advance(x2);
      x0, x1 := x1, x2;
      iteration := iteration + 1;
    }
    return Failed(iteration);
  }

  /** Reaching window n means every earlier pass shifted the window. */
  lemma {:induction false} WindowPrefix(func: real -> Option<real>, epsilon: real, start: real, end: real,
                                       j: nat, n: nat)
    requires j < n
    requires Window(func, epsilon, start, end, n).Some?
    ensures Window(func, epsilon, start, end, j).Some?
    ensures VerdictAt(func, epsilon, start, end, j).Advance?
  {
    if j < n - 1 {
      WindowPrefix(func, epsilon, start, end, j, n - 1);
    }
  }

  /** The zero-based index of the pass at which a result was decided (for a budget stop, the budget). */
  function StopIndex(func: real -> Option<real>, epsilon: real, start: real, end: real, r: RootResult): nat
  {
    match r
    case Failed(n) => n
    case Found(_, n) =>
      if Window(func, epsilon, start, end, n).Some? && !VerdictAt(func, epsilon, start, end, n).Advance?
      then n
      else if n == 0 then 0 else n - 1
  }

  /** The outcome is a function of the inputs: two runs on the same inputs agree. */
  lemma SecantOutcomeUnique(func: real -> Option<real>, start: real, end: real, epsilon: real,
                            maxIterations: int, r1: RootResult, r2: RootResult)
    requires SecantOutcome(func, start, end, epsilon, maxIterations, r1)
    requires SecantOutcome(func, start, end, epsilon, maxIterations, r2)
    ensures r1 == r2
  {
    if start != end {
      var n1 := StopIndex(func, epsilon, start, end, r1);
      var n2 := StopIndex(func, epsilon, start, end, r2);
      if n1 < n2 {
        WindowPrefix(func, epsilon, start, end, n1, n2);
      } else if n2 < n1 {
        WindowPrefix(func, epsilon, start, end, n2, n1);
      }
    }
  }

  /**
   * At a window the loop reaches within the budget, where both points evaluate
   * and neither residual is below epsilon, a zero denominator f(x1) - f(x0) ends
   * the run there with the absence marker and that iteration's count.
   */
  lemma ZeroDenominatorStops(func: real -> Option<real>, start: real, end: real, epsilon: real,
                             maxIterations: int, k: nat, r: RootResult)
    requires start != end
    requires k < Budget(maxIterations)
    requires Window(func, epsilon, start, end, k).Some?
    requires func(Window(func, epsilon, start, end, k).value.0).Some?
    requires func(Window(func, epsilon, start, end, k).value.1).Some?
    requires Abs(func(Window(func, epsilon, start, end, k).value.0).value) >= epsilon
    requires Abs(func(Window(func, epsilon, start, end, k).value.1).value) >= epsilon
    requires func(Window(func, epsilon, start, end, k).value.1).value
             - func(Window(func, epsilon, start, end, k).value.0).value == 0.0
    requires SecantOutcome(func, start, end, epsilon, maxIterations, r)
    ensures r == Failed(k)
  {
    assert VerdictAt(func, epsilon, start, end, k) == ZeroDenominator;
    SecantOutcomeUnique(func, start, end, epsilon, maxIterations, r, Failed(k));
  }

  /** An evaluation error at a window the loop reaches within the budget ends the run there. */
  lemma EvaluationErrorStops(func: real -> Option<real>, start: real, end: real, epsilon: real,
                             maxIterations: int, k: nat, r: RootResult)
    requires start != end
    requires k < Budget(maxIterations)
    requires Window(func, epsilon, start, end, k).Some?
    requires func(Window(func, epsilon, start, end, k).value.0).None? ||
             func(Window(func, epsilon, start, end, k).value.1).None?
    requires SecantOutcome(func, start, end, epsilon, maxIterations, r)
    ensures r == Failed(k)
  {
    SecantOutcomeUnique(func, start, end, epsilon, maxIterations, r, Failed(k));
  }

  /**
   * When both window points of a reached pass have a small residual, the first
   * one, x0, is the result, and the pass is not counted.
   */
  lemma FirstResidualWins(func: real -> Option<real>, start: real, end: real, epsilon: real,
                          maxIterations: int, k: nat, r: RootResult)
    requires start != end
    requires k < Budget(maxIterations)
    requires Window(func, epsilon, start, end, k).Some?
    requires SmallResidual(func, epsilon, Window(func, epsilon, start, end, k).value.0)
    requires func(Window(func, epsilon, start, end, k).value.1).Some?
    requires SecantOutcome(func, start, end, epsilon, maxIterations, r)
    ensures r == Found(Window(func, epsilon, start, end, k).value.0, k)
  {
    SecantOutcomeUnique(func, start, end, epsilon, maxIterations, r, Found(Window(func, epsilon, start, end, k).value.0, k));
  }

  /** A run whose every pass within the budget shifts the window fails with the whole budget as its count. */
  lemma BudgetExhaustedFails(func: real -> Option<real>, start: real, end: real, epsilon: real,
                             maxIterations: int, r: RootResult)
    requires start != end
    requires Window(func, epsilon, start, end, Budget(maxIterations)).Some?
    requires SecantOutcome(func, start, end, epsilon, maxIterations, r)
    ensures r == Failed(Budget(maxIterations))
  {
    SecantOutcomeUnique(func, start, end, epsilon, maxIterations, r, Failed(Budget(maxIterations)));
  }

  /**
   * The secant point is the zero of the chord through (x0, f0) and (x1, f1): the
   * chord's rise from x1 to it, (f1 - f0) / (x1 - x0) times the run, cancels f1.
   */
  lemma SecantPointIsChordZero(x0: real, x1: real, f0: real, f1: real)
    requires f1 - f0 != 0.0
    ensures (f1 - f0) * (SecantPoint(x0, x1, f0, f1) - x1) == -f1 * (x1 - x0)
  {
  }
}
