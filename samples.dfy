/**
 * The sample function f(x) = x^3 - 6x^2 + 11x - 6 and its derivative, and
 * client methods that call each root finder on small inputs and prove, from the
 * finders' contracts alone, the exact result.
 */
module SampleFunctions {
  import opened RootResults
  import NewtonRaphson
  import Secant
  import Bisection

  /** f(x) = x^3 - 6x^2 + 11x - 6, whose roots are 1, 2 and 3. */
  function F(x: real): (y: real)
    ensures y == (x - 1.0) * (x - 2.0) * (x - 3.0)
  {
    x * x * x - 6.0 * x * x + 11.0 * x - 6.0
  }

  /** f'(x) = 3x^2 - 12x + 11. */
  function Df(x: real): real
  {
    3.0 * x * x - 12.0 * x + 11.0
  }

  /** Df is the derivative of F: it is the first-order coefficient of F(x + h) - F(x) in h. */
  lemma DfIsDerivativeOfF(x: real, h: real)
    ensures F(x + h) - F(x) == h * Df(x) + h * h * (3.0 * x - 6.0) + h * h * h
  {
  }

  function Identity(x: real): real { x }

  function MinusOne(x: real): real { x - 1.0 }

  function Cube(x: real): real { x * x * x }

  function ThreeSquares(x: real): real { 3.0 * x * x }

  /** f as a secant handle that always evaluates. */
  function EvaluatedF(x: real): Option<real> { Some(F(x)) }

  /** 1/x as a secant handle: the division raises at 0. */
  function Reciprocal(x: real): Option<real> { if x == 0.0 then None else Some(1.0 / x) }

  /** f(1) * f(2) = 2 >= 0 for f(x) = x: no sign change, so bisection fails at once. */
  method BisectionWithoutSignChange() returns (r: RootResult)
    ensures r == Failed(0)
  {
    r := Bisection.BisectionMethod(Identity, 1.0, 2.0, 0.0001);
  }

  /** Without a sign change the tolerance is never used: even epsilon = -1 fails at once. */
  method BisectionNegativeToleranceWithoutSignChange() returns (r: RootResult)
    ensures r == Failed(0)
  {
    r := Bisection.BisectionMethod(Identity, 1.0, 2.0, -1.0);
  }

  /**
   * A reversed bracket (1, -1) with epsilon = 0: the half width -1 is already at
   * most epsilon, so the loop does not run and the midpoint 0 is returned.
   */
  method BisectionReversedBracketZeroTolerance() returns (r: RootResult)
    ensures r == Found(0.0, 0)
  {
    var g := Identity;
    r := Bisection.BisectionMethod(g, 1.0, -1.0, 0.0);
    assert Bisection.BisectionOutcome(g, 1.0, -1.0, 0.0, Found(0.0, 0));
    Bisection.BisectionOutcomeUnique(g, 1.0, -1.0, 0.0, r, Found(0.0, 0));
  }

  /** For f(x) = x - 1 on [0, 2] the first midpoint, 1, is the root, found in one iteration. */
  method BisectionFirstMidpointIsRoot() returns (r: RootResult)
    ensures r == Found(1.0, 1)
  {
    var g := MinusOne;
    r := Bisection.BisectionMethod(g, 0.0, 2.0, 0.0001);
    assert Bisection.BisectionOutcome(g, 0.0, 2.0, 0.0001, Found(1.0, 1));
    Bisection.BisectionOutcomeUnique(g, 0.0, 2.0, 0.0001, r, Found(1.0, 1));
  }

  /** f changes sign on [1.5, 2.5] and vanishes at the midpoint 2. */
  method BisectionOnCubic() returns (r: RootResult)
    ensures r == Found(2.0, 1)
  {
    r := Bisection.BisectionMethod(F, 1.5, 2.5);
    assert F(1.5) * F(2.5) < 0.0;
    assert F(2.0) == 0.0;
    assert Bisection.BisectionOutcome(F, 1.5, 2.5, 0.0001, Found(2.0, 1));
    Bisection.BisectionOutcomeUnique(F, 1.5, 2.5, 0.0001, r, Found(2.0, 1));
  }

  /** For x^3 with derivative 3x^2 the derivative vanishes at the seed 0: failure in the first iteration. */
  method NewtonZeroDerivative() returns (r: RootResult)
    ensures r == Failed(0)
  {
    var g := Cube;
    var dg := ThreeSquares;
    r := NewtonRaphson.NewtonMethod(g, dg, 0.0);
    NewtonRaphson.ZeroDerivativeStops(g, dg, 0.0, 0.0001, 100, 0, r);
  }

  /** Started at the root 2 of f, Newton's first step has length 0 and is accepted. */
  method NewtonFromRoot() returns (r: RootResult)
    ensures r == Found(2.0, 1)
  {
    r := NewtonRaphson.NewtonMethod(F, Df, 2.0, 0.0001, 100);
    assert Df(2.0) == -1.0 && F(2.0) == 0.0;
    assert NewtonRaphson.NewtonOutcome(F, Df, 2.0, 0.0001, 100, Found(2.0, 1));
    NewtonRaphson.NewtonOutcomeUnique(F, Df, 2.0, 0.0001, 100, r, Found(2.0, 1));
  }

  function SquareMinusTwo(x: real): real { x * x - 2.0 }

  function TwiceX(x: real): real { 2.0 * x }

  /**
   * For x^2 - 2 from 1 the iterates are 3/2, 17/12, 577/408 and 665857/470832;
   * the fourth step is the first shorter than 0.0001, so four iterations are counted.
   */
  method NewtonSquareRootOfTwo() returns (r: RootResult)
    ensures r == Found(665857.0 / 470832.0, 4)
  {
    r := NewtonRaphson.NewtonMethod(SquareMinusTwo, TwiceX, 1.0, 0.0001, 100);
    SquareRootOfTwoSteps();
    assert NewtonRaphson.Iterate(SquareMinusTwo, TwiceX, 0.0001, 1.0, 1) == Some(3.0 / 2.0);
    assert NewtonRaphson.Iterate(SquareMinusTwo, TwiceX, 0.0001, 1.0, 2) == Some(17.0 / 12.0);
    assert NewtonRaphson.Iterate(SquareMinusTwo, TwiceX, 0.0001, 1.0, 3) == Some(577.0 / 408.0);
    assert NewtonRaphson.NewtonOutcome(SquareMinusTwo, TwiceX, 1.0, 0.0001, 100, Found(665857.0 / 470832.0, 4));
    NewtonRaphson.NewtonOutcomeUnique(SquareMinusTwo, TwiceX, 1.0, 0.0001, 100, r, Found(665857.0 / 470832.0, 4));
  }

  lemma SquareRootOfTwoSteps()
    ensures NewtonRaphson.NewtonStep(SquareMinusTwo, TwiceX, 0.0001, 1.0) == NewtonRaphson.Advance(3.0 / 2.0)
    ensures NewtonRaphson.NewtonStep(SquareMinusTwo, TwiceX, 0.0001, 3.0 / 2.0) == NewtonRaphson.Advance(17.0 / 12.0)
    ensures NewtonRaphson.NewtonStep(SquareMinusTwo, TwiceX, 0.0001, 17.0 / 12.0) == NewtonRaphson.Advance(577.0 / 408.0)
    ensures NewtonRaphson.NewtonStep(SquareMinusTwo, TwiceX, 0.0001, 577.0 / 408.0)
            == NewtonRaphson.Converged(665857.0 / 470832.0)
  {
  }

  /** Identical seeds are rejected before any evaluation. */
  method SecantIdenticalSeeds() returns (r: RootResult)
    ensures r == Failed(0)
  {
    r := Secant.SecantMethod(EvaluatedF, 2.0, 2.0);
  }

  /** Both seeds 1 and 2 are roots of f: the first seed wins, in iteration 0. */
  method SecantTieFavoursFirstSeed() returns (r: RootResult)
    ensures r == Found(1.0, 0)
  {
    var g := EvaluatedF;
    r := Secant.SecantMethod(g, 1.0, 2.0, 0.0001, 100);
    assert F(1.0) == 0.0 && F(2.0) == 0.0;
    Secant.FirstResidualWins(g, 1.0, 2.0, 0.0001, 100, 0, r);
  }

  /** The second seed 2 is a root of f and the first seed 0.5 is not. */
  method SecantSecondSeedIsRoot() returns (r: RootResult)
    ensures r == Found(2.0, 0)
  {
    var g := EvaluatedF;
    r := Secant.SecantMethod(g, 0.5, 2.0, 0.0001, 100);
    assert F(0.5) == -1.875 && F(2.0) == 0.0;
    assert Secant.SecantOutcome(g, 0.5, 2.0, 0.0001, 100, Found(2.0, 0));
    Secant.SecantOutcomeUnique(g, 0.5, 2.0, 0.0001, 100, r, Found(2.0, 0));
  }

  /** 1/x cannot be evaluated at the seed 0: the error is reported as a failure at iteration 0. */
  method SecantEvaluationError() returns (r: RootResult)
    ensures r == Failed(0)
  {
    var reciprocal := Reciprocal;
    r := Secant.SecantMethod(reciprocal, 0.0, 1.0, 0.0001, 100);
    Secant.EvaluationErrorStops(reciprocal, 0.0, 1.0, 0.0001, 100, 0, r);
  }
}
