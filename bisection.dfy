/**
 * Bisection: given a bracket [start, end] across which f changes sign, halve it
 * until half its width is at most epsilon, keeping the half that still changes
 * sign, and stop early at a midpoint whose residual is below epsilon.
 */
module Bisection {
  import opened RootResults

  /** What one pass of the loop does with the bracket (a, b). */
  datatype BisectionVerdict =
    | WidthReached            // (b - a) / 2 <= epsilon: the loop exits with the midpoint
    | ExactRoot(mid: real)    // |f(mid)| < epsilon: return the midpoint at once
    | Narrowed(a: real, b: real)  // carry on with the half that keeps the sign change

  function Midpoint(a: real, b: real): real { (a + b) / 2.0 }

  function BisectionStep(f: real -> real, epsilon: real, a: real, b: real): BisectionVerdict
  {
    if (b - a) / 2.0 <= epsilon then WidthReached
    else
      var mid := Midpoint(a, b);
      if Abs(f(mid)) < epsilon then ExactRoot(mid)
      else if f(a) * f(mid) < 0.0 then Narrowed(a, mid)
      else Narrowed(mid, b)
  }

  /**
   * The bracket the loop holds after n passes that all narrowed it; None when
   * one of the first n passes stopped.
   */
  function Bracket(f: real -> real, epsilon: real, start: real, end: real, n: nat): Option<(real, real)>
  {
    if n == 0 then Some((start, end))
    else match Bracket(f, epsilon, start, end, n - 1)
      case None => None
      case Some((a, b)) =>
        match BisectionStep(f, epsilon, a, b)
        case Narrowed(a', b') => Some((a', b'))
        case _ => None
  }

  /** The verdict of pass n, on a bracket the loop reaches. */
  function VerdictAt(f: real -> real, epsilon: real, start: real, end: real, n: nat): BisectionVerdict
    requires Bracket(f, epsilon, start, end, n).Some?
  {
    var (a, b) := Bracket(f, epsilon, start, end, n).value;
    BisectionStep(f, epsilon, a, b)
  }

  /** f takes values of opposite signs at the two ends of (a, b). */
  predicate SignChange(f: real -> real, a: real, b: real)
  {
    f(a) * f(b) < 0.0
  }

  /**
   * The result the loop must produce. Without a sign change at the ends the run
   * fails at once with 0 iterations. Otherwise it succeeds with count n: either
   * n passes narrowed the bracket and its half width is now at most epsilon (the
   * root is its midpoint), or n - 1 passes narrowed it and pass n (one-based)
   * found a midpoint with a residual below epsilon.
   */
  predicate BisectionOutcome(f: real -> real, start: real, end: real, epsilon: real, r: RootResult)
  {
    if !SignChange(f, start, end) then r == Failed(0)
    else match r
      case Failed(_) => false
      case Found(x, n) =>
        || (&& Bracket(f, epsilon, start, end, n).Some?
            && VerdictAt(f, epsilon, start, end, n).WidthReached?
            && x == Midpoint(Bracket(f, epsilon, start, end, n).value.0, Bracket(f, epsilon, start, end, n).value.1))
        || (&& 1 <= n
            && Bracket(f, epsilon, start, end, n - 1).Some?
            && VerdictAt(f, epsilon, start, end, n - 1) == ExactRoot(x))
  }

  /** 2 to the power n, as a real. */
  function Pow2(n: nat): (p: real)
    ensures p >= 1.0
  {
    if n == 0 then 1.0 else 2.0 * Pow2(n - 1)
  }

  /** Halving a width w > 2 * epsilon lowers the loop's termination measure floor(w / epsilon). */
  lemma HalvingLowersMeasure(w: real, epsilon: real)
    requires epsilon > 0.0
    requires w / 2.0 > epsilon
    ensures 0 <= ((w / 2.0) / epsilon).Floor < (w / epsilon).Floor
  {
    var x := w / epsilon;
    assert w > 2.0 * epsilon;
    assert x > 2.0 by {
      assert x * epsilon == w;
    }
    assert (w / 2.0) / epsilon == x / 2.0;
    assert (x / 2.0).Floor as real <= x / 2.0 < x - 1.0 < x.Floor as real;
  }

  /**
   * A pass that neither exits nor stops early keeps half of the bracket, and
   * lowers the termination measure floor((b - a) / epsilon).
   */
  lemma PassNarrows(f: real -> real, epsilon: real, a: real, b: real, a': real, b': real)
    requires epsilon > 0.0
    requires (b - a) / 2.0 > epsilon
    requires Abs(f(Midpoint(a, b))) >= epsilon
    requires (a', b') == (if f(a) * f(Midpoint(a, b)) < 0.0 then (a, Midpoint(a, b)) else (Midpoint(a, b), b))
    ensures BisectionStep(f, epsilon, a, b) == Narrowed(a', b')
    ensures b' - a' == (b - a) / 2.0 && a <= a' < b' <= b
    ensures 0 <= ((b' - a') / epsilon).Floor < ((b - a) / epsilon).Floor
  {
    HalvingLowersMeasure(b - a, epsilon);
  }

  /**
   * The loop of `bisection_method` in EquationRoots.py. The loop has no counter bound of its own; it ends
   * because every pass halves b - a, so floor((b - a) / epsilon) decreases.
   * The precondition is exactly the set of calls that return: with epsilon <= 0
   * and a sign change the loop runs forever unless its guard is false at entry
   * (see NonPositiveToleranceNeverStops).
   */
  method BisectionMethod(f: real -> real, start: real, end: real, epsilon: real := 0.0001) returns (r: RootResult)
    requires || epsilon > 0.0
             || !SignChange(f, start, end)
             || (end - start) / 2.0 <= epsilon
    ensures BisectionOutcome(f, start, end, epsilon, r)
    ensures r.Failed? <==> !SignChange(f, start, end)
    ensures r.Failed? ==> r.iterations == 0
    ensures r.Found? ==> Min(start, end) < r.root < Max(start, end)
  {
    var a := start;
    var b := end;
    var iterations: nat := 0;
    if !SignChange(f, a, b) {
      return Failed(iterations);
    }
    while (b - a) / 2.0 > epsilon
      invariant Bracket(f, epsilon, start, end, iterations) == Some((a, b))
      invariant epsilon > 0.0 || (iterations == 0 && (b - a) / 2.0 <= epsilon)
      decreases if epsilon > 0.0 then ((b - a) / epsilon).Floor else 0
    {
      ghost var a0, b0 := a, b;
      iterations := iterations + 1;
      var mid := (a + b) / 2.0;
      var f_mid := f(mid);
      if Abs(f_mid) < epsilon {
        assert VerdictAt(f, epsilon, start, end, iterations - 1) == ExactRoot(mid);
        EarlyReturnOutcome(f, start, end, epsilon, iterations - 1, mid);
        return Found(mid, iterations);
      } else if f(a) * f_mid < 0.0 {
        b := mid;
      } else {
        a := mid;
      }
      PassNarrows(f, epsilon, a0, b0, a, b);
    }
    assert VerdictAt(f, epsilon, start, end, iterations).WidthReached?;
    WidthExitOutcome(f, start, end, epsilon, iterations);
    return Found((a + b) / 2.0, iterations);
  }

  /** An early return at pass n (zero-based) is the outcome, and its midpoint lies strictly inside the range. */
  lemma EarlyReturnOutcome(f: real -> real, start: real, end: real, epsilon: real, n: nat, mid: real)
    requires epsilon > 0.0
    requires SignChange(f, start, end)
    requires Bracket(f, epsilon, start, end, n).Some?
    requires VerdictAt(f, epsilon, start, end, n) == ExactRoot(mid)
    ensures BisectionOutcome(f, start, end, epsilon, Found(mid, n + 1))
    ensures Min(start, end) < mid < Max(start, end)
  {
    MidpointInRange(f, epsilon, start, end, n);
  }

  /** The loop's exit after n passes is the outcome, and the midpoint it returns lies strictly inside the range. */
  lemma WidthExitOutcome(f: real -> real, start: real, end: real, epsilon: real, n: nat)
    requires epsilon > 0.0 || n == 0
    requires SignChange(f, start, end)
    requires Bracket(f, epsilon, start, end, n).Some?
    requires VerdictAt(f, epsilon, start, end, n).WidthReached?
    ensures var (a, b) := Bracket(f, epsilon, start, end, n).value;
            && BisectionOutcome(f, start, end, epsilon, Found(Midpoint(a, b), n))
            && Min(start, end) < Midpoint(a, b) < Max(start, end)
  {
    MidpointInRange(f, epsilon, start, end, n);
  }

  /**
   * The midpoint of every bracket the loop reaches lies strictly between start
   * and end (in either order of the two).
   */
  lemma MidpointInRange(f: real -> real, epsilon: real, start: real, end: real, n: nat)
    requires epsilon > 0.0 || n == 0
    requires SignChange(f, start, end)
    requires Bracket(f, epsilon, start, end, n).Some?
    ensures var (a, b) := Bracket(f, epsilon, start, end, n).value;
            Min(start, end) < Midpoint(a, b) < Max(start, end)
  {
    if n > 0 {
      BracketPrefix(f, epsilon, start, end, 0, n);
      BracketNested(f, epsilon, start, end, n - 1);
    }
  }

  /** Reaching bracket n means every earlier pass narrowed the bracket. */
  lemma {:induction false} BracketPrefix(f: real -> real, epsilon: real, start: real, end: real, j: nat, n: nat)
    requires j < n
    requires Bracket(f, epsilon, start, end, n).Some?
    ensures Bracket(f, epsilon, start, end, j).Some?
    ensures VerdictAt(f, epsilon, start, end, j).Narrowed?
  {
    if j < n - 1 {
      BracketPrefix(f, epsilon, start, end, j, n - 1);
    }
  }

  /** w halved n times. */
  function Halved(w: real, n: nat): real
  {
    if n == 0 then w else Halved(w, n - 1) / 2.0
  }

  /** Halving n times is dividing by 2^n. */
  lemma {:induction false} HalvedIsQuotient(w: real, n: nat)
    ensures Halved(w, n) * Pow2(n) == w
  {
    if n > 0 {
      HalvedIsQuotient(w, n - 1);
      var h, p := Halved(w, n - 1), Pow2(n - 1);
      assert (h / 2.0) * (2.0 * p) == h * p;
    }
  }

  /**
   * Every pass halves the bracket exactly: after n passes its width is
   * end - start halved n times, that is (end - start) / 2^n.
   */
  lemma {:induction false} BracketHalves(f: real -> real, epsilon: real, start: real, end: real, n: nat)
    requires Bracket(f, epsilon, start, end, n).Some?
    ensures Bracket(f, epsilon, start, end, n).value.1 - Bracket(f, epsilon, start, end, n).value.0
            == Halved(end - start, n)
  {
    if n > 0 {
      BracketPrefix(f, epsilon, start, end, n - 1, n);
      BracketHalves(f, epsilon, start, end, n - 1);
    }
  }

  /**
   * Each pass keeps exactly one old endpoint and moves the other to the
   * midpoint, so (for a proper starting interval) every bracket lies inside the
   * one before it, and all of them inside [start, end].
   */
  lemma {:induction false} BracketNested(f: real -> real, epsilon: real, start: real, end: real, n: nat)
    requires start < end
    requires Bracket(f, epsilon, start, end, n + 1).Some?
    ensures var (a, b) := Bracket(f, epsilon, start, end, n).value;
            var (a', b') := Bracket(f, epsilon, start, end, n + 1).value;
            && ((a' == a && b' == Midpoint(a, b)) || (a' == Midpoint(a, b) && b' == b))
            && start <= a <= a' < b' <= b <= end
  {
    BracketPrefix(f, epsilon, start, end, n, n + 1);
    if n > 0 {
      BracketNested(f, epsilon, start, end, n - 1);
    }
  }

  /**
   * With epsilon > 0 every bracket the loop reaches still changes sign: a pass
   * that does not stop has |f(mid)| >= epsilon > 0, so the half it keeps has
   * ends of opposite signs.
   */
  lemma {:induction false} BracketKeepsSignChange(f: real -> real, epsilon: real, start: real, end: real, n: nat)
    requires epsilon > 0.0
    requires SignChange(f, start, end)
    requires Bracket(f, epsilon, start, end, n).Some?
    ensures SignChange(f, Bracket(f, epsilon, start, end, n).value.0, Bracket(f, epsilon, start, end, n).value.1)
  {
    if n > 0 {
      BracketPrefix(f, epsilon, start, end, n - 1, n);
      BracketKeepsSignChange(f, epsilon, start, end, n - 1);
      var (a, b) := Bracket(f, epsilon, start, end, n - 1).value;
      var mid := Midpoint(a, b);
      assert f(mid) != 0.0;
      if f(a) * f(mid) >= 0.0 {
        // f(a) and f(mid) are both nonzero, so they have the same sign, opposite to f(b)
        SameSignKeepsChange(f(a), f(mid), f(b));
      }
    }
  }

  /** If u * w < 0, v != 0 and u * v >= 0, then v * w < 0. */
  lemma SameSignKeepsChange(u: real, v: real, w: real)
    requires u * w < 0.0
    requires v != 0.0
    requires u * v >= 0.0
    ensures v * w < 0.0
  {
  }

  /** The outcome is a function of the inputs: two runs on the same inputs agree. */
  lemma BisectionOutcomeUnique(f: real -> real, start: real, end: real, epsilon: real, r1: RootResult, r2: RootResult)
    requires BisectionOutcome(f, start, end, epsilon, r1)
    requires BisectionOutcome(f, start, end, epsilon, r2)
    ensures r1 == r2
  {
    if SignChange(f, start, end) {
      var n1 := StopIndex(f, epsilon, start, end, r1);
      var n2 := StopIndex(f, epsilon, start, end, r2);
      if n1 < n2 {
        BracketPrefix(f, epsilon, start, end, n1, n2);
      } else if n2 < n1 {
        BracketPrefix(f, epsilon, start, end, n2, n1);
      }
    }
  }

  /** The zero-based index of the pass at which a result was decided. */
  function StopIndex(f: real -> real, epsilon: real, start: real, end: real, r: RootResult): nat
  {
    match r
    case Failed(n) => n
    case Found(_, n) =>
      if Bracket(f, epsilon, start, end, n).Some? && VerdictAt(f, epsilon, start, end, n).WidthReached?
      then n
      else if n == 0 then 0 else n - 1
  }

  /**
   * Every counted pass ran with half the bracket wider than epsilon, so the
   * count n satisfies end - start > epsilon * 2^n: it grows only with
   * log2((end - start) / epsilon).
   */
  lemma IterationsLogBound(f: real -> real, start: real, end: real, epsilon: real, r: RootResult)
    requires BisectionOutcome(f, start, end, epsilon, r)
    requires r.Found? && r.iterations >= 1
    ensures end - start > epsilon * Pow2(r.iterations)
  {
    LastPassWasWide(f, start, end, epsilon, r);
    WideAfterHalving(end - start, epsilon, r.iterations);
  }

  /** The last counted pass ran with half the bracket wider than epsilon. */
  lemma LastPassWasWide(f: real -> real, start: real, end: real, epsilon: real, r: RootResult)
    requires BisectionOutcome(f, start, end, epsilon, r)
    requires r.Found? && r.iterations >= 1
    ensures Halved(end - start, r.iterations) > epsilon
  {
    var n := r.iterations;
    if Bracket(f, epsilon, start, end, n).Some? {
      BracketPrefix(f, epsilon, start, end, n - 1, n);
    }
    BracketHalves(f, epsilon, start, end, n - 1);
  }

  lemma WideAfterHalving(d: real, epsilon: real, n: nat)
    requires Halved(d, n) > epsilon
    ensures d > epsilon * Pow2(n)
  {
    HalvedIsQuotient(d, n);
    assert Halved(d, n) * Pow2(n) > epsilon * Pow2(n);
  }

  /**
   * A result whose residual is not already below epsilon is the midpoint of a
   * bracket of width at most 2 * epsilon inside [start, end] across which f still
   * changes sign.
   */
  lemma FoundRootIsBracketed(f: real -> real, start: real, end: real, epsilon: real, r: RootResult)
    requires epsilon > 0.0
    requires start < end
    requires BisectionOutcome(f, start, end, epsilon, r)
    requires r.Found?
    ensures || Abs(f(r.root)) < epsilon
            || (&& Bracket(f, epsilon, start, end, r.iterations).Some?
                && var (a, b) := Bracket(f, epsilon, start, end, r.iterations).value;
                   && start <= a < r.root < b <= end
                   && b - a <= 2.0 * epsilon
                   && SignChange(f, a, b))
  {
    var n := r.iterations;
    if Bracket(f, epsilon, start, end, n).Some? && VerdictAt(f, epsilon, start, end, n).WidthReached? {
      BracketKeepsSignChange(f, epsilon, start, end, n);
      BracketHalves(f, epsilon, start, end, n);
      if n > 0 {
        BracketNested(f, epsilon, start, end, n - 1);
      }
    }
  }

  /**
   * With epsilon <= 0 and a loop guard true at entry no pass ever stops: each
   * pass halves a half width above epsilon <= 0, which keeps it above epsilon,
   * and no residual is below epsilon. These are exactly the calls with a sign
   * change that BisectionMethod excludes, and the loop of `bisection_method` does not
   * terminate on them.
   */
  lemma {:induction false} NonPositiveToleranceNeverStops(f: real -> real, epsilon: real, start: real, end: real, n: nat)
    requires epsilon <= 0.0
    requires (end - start) / 2.0 > epsilon
    ensures Bracket(f, epsilon, start, end, n).Some?
    ensures (Bracket(f, epsilon, start, end, n).value.1 - Bracket(f, epsilon, start, end, n).value.0) / 2.0 > epsilon
  {
    if n > 0 {
      NonPositiveToleranceNeverStops(f, epsilon, start, end, n - 1);
      var (a, b) := Bracket(f, epsilon, start, end, n - 1).value;
      assert BisectionStep(f, epsilon, a, b).Narrowed?;
    }
  }
}
